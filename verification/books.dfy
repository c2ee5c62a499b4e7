/**
 * The logic inside the book handlers: the data-URL image codec
 * (`fromBytesToString` / `fromStringToBytes`, after RFC 2397), the
 * dereference-or-zero helper, the `page`/`limit` query parsing of the list
 * endpoint, and the checks the create, update and delete endpoints make
 * before calling the book service.
 */
module Books {
  import opened Wrappers
  import opened Strings
  import opened Base64
  import opened Jwt
  import opened Replies
  import Validate
  import Users

  const DataPrefix: string := "data:"
  const DefaultMime: string := "image/png"

  /** The error of a `data:` URL without a comma. */
  const InvalidDataUrl: string := "invalid data url"
  /** The error of text that is not standard base64. */
  const IllegalBase64: string := "illegal base64 data"

  // ---------------------------------------------------------------------
  // The image codec. A Go `[]byte` is `Option<seq<byte>>`: `None` is nil.

  /**
   * `fromBytesToString`: nil is the empty string; any other slice, the
   * empty one included, becomes `data:<mime>;base64,<payload>`, with
   * `image/png` for a missing mime type.
   */
  function FromBytesToString(b: Option<seq<byte>>, mime: string): (s: string)
    ensures b.None? <==> s == ""
    ensures b.Some? ==> DataPrefix <= s
  {
    if b.None? then ""
    else DataPrefix + (if mime == "" then DefaultMime else mime) + ";base64," + Encode(b.value)
  }

  /** Standard base64 decoding with the error as text. */
  function DecodeText(s: string): (r: Result<seq<byte>, string>)
    ensures r.Ok? <==> Decode(s).Some?
    ensures r.Ok? ==> r.value == Decode(s).value
  {
    match Decode(s)
    case None => Err(IllegalBase64)
    case Some(b) => Ok(b)
  }

  /**
   * `fromStringToBytes`: the bytes and mime type of an image field. The
   * empty string is no image; text without the `data:` prefix is plain
   * base64 with no mime type; a `data:` URL is split at its first comma,
   * the mime type is what lies between `data:` and the first `;` before
   * that comma (none without a `;`), and the rest is decoded as base64
   * whatever the parameters say.
   */
  function FromStringToBytes(str: string): (r: Result<(Option<seq<byte>>, string), string>)
    ensures str == "" ==> r == Ok((None, ""))
    ensures r.Ok? && r.value.0.None? ==> str == ""
    ensures r == Err(InvalidDataUrl) <==> DataPrefix <= str && ',' !in str
    ensures r.Err? ==> r.error == InvalidDataUrl || r.error == IllegalBase64
    ensures !(DataPrefix <= str) && str != "" ==> r.Ok? == Decode(str).Some?
    ensures !(DataPrefix <= str) && r.Ok? ==> r.value.1 == ""
    ensures !(DataPrefix <= str) && str != "" && r.Ok? ==> r.value.0 == Some(Decode(str).value)
    ensures DataPrefix <= str && ',' in str ==> (r.Ok? <==> Decode(SplitFirst(str, ',')[1]).Some?)
    ensures DataPrefix <= str && ',' in str && r.Ok? ==> r.value.0 == Some(Decode(SplitFirst(str, ',')[1]).value)
  {
    if str == "" then Ok((None, ""))
    else if !(DataPrefix <= str) then
      match DecodeText(str)
      case Err(e) => Err(e)
      case Ok(b) => Ok((Some(b), ""))
    else
      var parts := SplitFirst(str, ',');
      if |parts| != 2 then Err(InvalidDataUrl)
      else
        var meta, data := parts[0], parts[1];
        var mime := if ';' in meta then TrimPrefix(Split(meta, ';')[0], DataPrefix) else "";
        match DecodeText(data)
        case Err(e) => Err(e)
        case Ok(b) => Ok((Some(b), mime))
  }

  /** Splitting at a separator that first occurs right after `p`. */
  lemma SplitAfterPrefix(p: string, sep: char, rest: string)
    requires sep !in p
    ensures SplitFirst(p + [sep] + rest, sep) == [p, rest]
    ensures Split(p + [sep] + rest, sep)[0] == p
  {
    IndexOfAfterPrefix(p, sep, rest);
    var s := p + [sep] + rest;
    assert s[..|p|] == p && s[|p| + 1..] == rest;
  }

  /**
   * How a `data:` URL decodes: with a mime type free of `,` and `;` and
   * parameters free of `,`, the result is that mime type and the decoded
   * payload, whether or not the parameters say `base64`.
   */
  lemma DataUrlDecoding(mime: string, params: string, payload: string)
    requires ',' !in mime && ';' !in mime && ',' !in params
    ensures FromStringToBytes(DataPrefix + mime + ";" + params + "," + payload)
         == (match Decode(payload) case None => Err(IllegalBase64) case Some(b) => Ok((Some(b), mime)))
  {
    var head := DataPrefix + mime;
    var meta := head + ";" + params;
    var s := DataPrefix + mime + ";" + params + "," + payload;
    assert s == meta + [','] + payload;
    assert ',' !in head && ';' !in head;
    assert ',' !in meta by {
      assert meta == head + [';'] + params;
    }
    SplitAfterPrefix(meta, ',', payload);
    assert meta == head + [';'] + params;
    SplitAfterPrefix(head, ';', params);
    assert DataPrefix <= s by {
      assert s[..|DataPrefix|] == DataPrefix;
    }
    assert ';' in meta by {
      assert meta[|head|] == ';';
    }
  }

  /**
   * The codec round trip: an image written out as a data URL reads back as
   * the same bytes with its mime type (or `image/png` when it had none),
   * provided the mime type holds no `,` or `;`.
   */
  lemma DataUrlRoundTrip(b: seq<byte>, mime: string)
    requires ',' !in mime && ';' !in mime
    ensures FromStringToBytes(FromBytesToString(Some(b), mime))
         == Ok((Some(b), if mime == "" then DefaultMime else mime))
  {
    var m := if mime == "" then DefaultMime else mime;
    var e := Encode(b);
    assert ',' !in DefaultMime && ';' !in DefaultMime;
    assert ";base64," == ";" + "base64" + ",";
    calc {
      FromBytesToString(Some(b), mime);
      DataPrefix + m + ";base64," + e;
      DataPrefix + m + (";" + "base64" + ",") + e;
      { SeqAssoc5(DataPrefix + m, ";", "base64", ",", e); }
      DataPrefix + m + ";" + "base64" + "," + e;
    }
    DataUrlDecoding(m, "base64", e);
    RoundTrip(b);
  }

  lemma SeqAssoc5(a: string, b: string, c: string, d: string, e: string)
    ensures a + (b + c + d) + e == a + b + c + d + e
  {
  }

  /** No image written out reads back as no image. */
  lemma NilRoundTrip(mime: string)
    ensures FromStringToBytes(FromBytesToString(None, mime)) == Ok((None, ""))
  {
  }

  /** Plain base64 of a nonempty byte string is accepted as the image, with no mime type. */
  lemma PlainBase64Accepted(b: seq<byte>)
    requires |b| > 0
    ensures FromStringToBytes(Encode(b)) == Ok((Some(b), ""))
  {
    NotDataUrl(b);
    RoundTrip(b);
  }

  /** Base64 text never starts with `data:`: its fifth character, if any, is a symbol or `=`, never `:`. */
  lemma NotDataUrl(b: seq<byte>)
    ensures !(DataPrefix <= Encode(b))
  {
    var s := Encode(b);
    EncodeAlphabet(b);
    assert !IsSymbol(':') && ':' != Pad;
    assert DataPrefix[4] == ':';
    assert |s| <= 4 || s[4] != ':';
  }

  /**
   * A `data:` URL whose metadata has no `;` yields no mime type, whatever
   * the metadata says, though the payload still decodes.
   */
  lemma MimeNeedsSemicolon(mime: string, payload: string)
    requires ',' !in mime && ';' !in mime
    ensures FromStringToBytes(DataPrefix + mime + "," + payload)
         == (match Decode(payload) case None => Err(IllegalBase64) case Some(b) => Ok((Some(b), "")))
  {
    var meta := DataPrefix + mime;
    assert DataPrefix + mime + "," + payload == meta + [','] + payload;
    assert ',' !in meta && ';' !in meta;
    SplitAfterPrefix(meta, ',', payload);
    assert DataPrefix <= meta + [','] + payload by {
      assert (meta + [','] + payload)[..|DataPrefix|] == DataPrefix;
    }
  }

  /** In particular, an image the encoder wrote under such a header reads back with no mime type. */
  lemma MimeNeedsSemicolonRoundTrip(mime: string, b: seq<byte>)
    requires ',' !in mime && ';' !in mime
    ensures FromStringToBytes(DataPrefix + mime + "," + Encode(b)) == Ok((Some(b), ""))
  {
    MimeNeedsSemicolon(mime, Encode(b));
    RoundTrip(b);
  }

  /** `validate[T]`: the value a pointer points to, or the zero value for nil. */
  function Deref<T>(p: Option<T>, zero: T): (v: T)
    ensures p.Some? ==> v == p.value
    ensures p.None? ==> v == zero
  {
    match p
    case None => zero
    case Some(x) => x
  }

  // ---------------------------------------------------------------------
  // Integer parsing

  const MinInt64: int := -0x8000_0000_0000_0000
  const MaxInt64: int := 0x7fff_ffff_ffff_ffff

  predicate AllDecimal(s: string)
  {
    forall k :: 0 <= k < |s| ==> Validate.IsDigit(s[k])
  }

  /** The value of a string of decimal digits, most significant first. */
  function DigitsValue(s: string): nat
    requires AllDecimal(s)
  {
    if |s| == 0 then 0 else DigitsValue(s[..|s| - 1]) * 10 + (s[|s| - 1] as int - '0' as int)
  }

  /**
   * `strconv.Atoi` on a 64-bit platform: an optional `+` or `-`, then one
   * or more decimal digits and nothing else, in the range of `int64`.
   */
  function Atoi(s: string): (r: Option<int>)
    ensures r.Some? ==> MinInt64 <= r.value <= MaxInt64
    ensures r.Some? ==> |s| > 0 && (Validate.IsDigit(s[0]) || s[0] == '+' || s[0] == '-')
    ensures r.Some? ==> AllDecimal(s[1..])
    ensures r.Some? ==> r.value == (if s[0] == '-' then -(DigitsValue(s[1..]) as int)
                                    else if s[0] == '+' then DigitsValue(s[1..]) as int
                                    else DigitsValue(s) as int)
    ensures |s| > 0 && AllDecimal(s) && DigitsValue(s) <= MaxInt64 ==> r == Some(DigitsValue(s) as int)
  {
    var signed := |s| > 0 && (s[0] == '-' || s[0] == '+');
    var digits := if signed then s[1..] else s;
    if |digits| == 0 || !AllDecimal(digits) then None
    else
      var v: int := if |s| > 0 && s[0] == '-' then -(DigitsValue(digits) as int) else DigitsValue(digits);
      if MinInt64 <= v <= MaxInt64 then Some(v) else None
  }

  /** The decimal digits of a natural number, without leading zeros. */
  function NatDigits(n: nat): (s: string)
    ensures |s| >= 1 && AllDecimal(s)
    ensures DigitsValue(s) == n
    ensures s[0] == '0' ==> n == 0
  {
    if n < 10 then
      var s := [('0' as int + n) as char];
      assert s[..0] == [];
      s
    else
      var high := NatDigits(n / 10);
      var s := high + [('0' as int + n % 10) as char];
      assert s[..|s| - 1] == high;
      s
  }

  /** `strconv.Itoa`: the decimal form, with `-` for negative numbers. */
  function Itoa(n: int): (s: string)
    ensures |s| >= 1
  {
    if n < 0 then "-" + NatDigits(-n) else NatDigits(n)
  }

  /**
   * A sign in front of digits: `+` keeps their value and `-` negates it,
   * each accepted exactly while the result fits in an `int64`.
   */
  lemma AtoiSigned(d: string)
    requires |d| > 0 && AllDecimal(d)
    ensures Atoi("+" + d) == if DigitsValue(d) <= MaxInt64 then Some(DigitsValue(d) as int) else None
    ensures Atoi("-" + d) == if -(DigitsValue(d) as int) >= MinInt64 then Some(-(DigitsValue(d) as int)) else None
  {
    assert ("+" + d)[1..] == d;
    assert ("-" + d)[1..] == d;
  }

  /** Leading zeros, an explicit `+` and a negative zero are read as Go reads them; a trailing letter is not. */
  lemma AtoiExamples()
    ensures Atoi("+5") == Some(5)
    ensures Atoi("007") == Some(7)
    ensures Atoi("-0") == Some(0)
    ensures Atoi("1x") == None
    ensures Atoi("") == None
    ensures Atoi("-") == None
  {
    assert "+5"[1..] == "5" && "5"[..0] == [];
    assert DigitsValue("5") == 5;
    assert "-0"[1..] == "0" && "0"[..0] == [];
    assert DigitsValue("0") == 0;
    assert "007"[..2] == "00" && "00"[..1] == "0";
    assert !Validate.IsDigit("1x"[1]);
    assert "-"[1..] == "";
  }

  /** `Atoi` reads back every `int64` that `Itoa` writes. */
  lemma AtoiItoa(n: int)
    requires MinInt64 <= n <= MaxInt64
    ensures Atoi(Itoa(n)) == Some(n)
  {
    if n < 0 {
      var s := Itoa(n);
      assert s[1..] == NatDigits(-n);
    }
  }

  // ---------------------------------------------------------------------
  // The list endpoint's query parameters

  const DefaultPage: int := 1
  const DefaultLimit: int := 10
  const InvalidPage: string := "invalid page"
  const InvalidLimit: string := "invalid limit"

  /** A query value that parses to a positive count. */
  predicate IsCount(s: string)
  {
    Atoi(s).Some? && Atoi(s).value >= 1
  }

  /**
   * The `page` and `limit` parsing of `ReadBooks`: an absent value takes
   * its default; a present one must be a positive integer, and `page` is
   * checked before `limit`.
   */
  method ParsePaging(pageStr: string, limitStr: string) returns (r: Result<(int, int), string>)
    ensures pageStr != "" && !IsCount(pageStr) ==> r == Err(InvalidPage)
    ensures (pageStr == "" || IsCount(pageStr)) && limitStr != "" && !IsCount(limitStr) ==> r == Err(InvalidLimit)
    ensures (pageStr == "" || IsCount(pageStr)) && (limitStr == "" || IsCount(limitStr)) ==> r.Ok?
    ensures r.Ok? ==> r.value.0 >= 1 && r.value.1 >= 1
    ensures r.Ok? ==> r.value.0 == (if pageStr == "" then DefaultPage else Atoi(pageStr).value)
    ensures r.Ok? ==> r.value.1 == (if limitStr == "" then DefaultLimit else Atoi(limitStr).value)
  {
    var page := DefaultPage;
    var limit := DefaultLimit;
    if pageStr != "" {
      var parsed := Atoi(pageStr);
      if parsed.None? || parsed.value < 1 {
        return Err(InvalidPage);
      }
      page := parsed.value;
    }
    if limitStr != "" {
      var parsed := Atoi(limitStr);
      if parsed.None? || parsed.value < 1 {
        return Err(InvalidLimit);
      }
      limit := parsed.value;
    }
    return Ok((page, limit));
  }

  // ---------------------------------------------------------------------
  // The checks before the book service is called

  const InvalidImage: Reply := HttpError(StatusBadRequest, "invalid image")

  /** The role the middleware put in the context is a string naming an account other than a client. */
  predicate IsStaff(role: Value)
  {
    role.Str? && role.s != Users.ClientRole
  }

  /** The image field of a request: absent is no image; present, it must decode. */
  function ImageOf(image: Option<string>): (r: Result<(Option<seq<byte>>, string), Reply>)
    ensures image.None? ==> r == Ok((None, ""))
    ensures image.Some? ==> (r.Ok? <==> FromStringToBytes(image.value).Ok?)
    ensures image.Some? && r.Ok? ==> r.value == FromStringToBytes(image.value).value
    ensures r.Err? ==> r.error == InvalidImage
  {
    match image
    case None => Ok((None, ""))
    case Some(text) =>
      match FromStringToBytes(text)
      case Err(_) => Err(InvalidImage)
      case Ok(decoded) => Ok(decoded)
  }

  /**
   * `CreateBook` up to the service call: the context's `role` must be a
   * string (the type assertion panics otherwise), and a client is refused
   * before the body is looked at; then the body must bind and its image
   * decode. The result is the image bytes and mime type to store.
   */
  function CreateChecks(role: Value, bound: bool, image: Option<string>): (r: Result<(Option<seq<byte>>, string), Reply>)
    ensures !role.Str? ==> r == Err(Panicked)
    ensures role == Str(Users.ClientRole) ==> r == Err(AccessDenied)
    ensures IsStaff(role) && !bound ==> r == Err(InvalidRequest)
    ensures IsStaff(role) && bound ==> r == ImageOf(image)
    ensures r.Ok? ==> IsStaff(role) && bound
  {
    match AsString(role)
    case Err(e) => Err(e)
    case Ok(name) =>
      if name == Users.ClientRole then Err(AccessDenied)
      else if !bound then Err(InvalidRequest)
      else ImageOf(image)
  }

  /** `UpdateBook` up to the service call: role, then body, then a nonempty id, then the image. */
  function UpdateChecks(role: Value, bound: bool, id: string, image: Option<string>): (r: Result<(Option<seq<byte>>, string), Reply>)
    ensures !role.Str? ==> r == Err(Panicked)
    ensures role == Str(Users.ClientRole) ==> r == Err(AccessDenied)
    ensures IsStaff(role) && (!bound || id == "") ==> r == Err(InvalidRequest)
    ensures IsStaff(role) && bound && id != "" ==> r == ImageOf(image)
    ensures r.Ok? ==> IsStaff(role) && bound && id != ""
  {
    match AsString(role)
    case Err(e) => Err(e)
    case Ok(name) =>
      if name == Users.ClientRole then Err(AccessDenied)
      else if !bound then Err(InvalidRequest)
      else if id == "" then Err(InvalidRequest)
      else ImageOf(image)
  }

  /** `DeleteBook` up to the service call: role, then a nonempty id. */
  function DeleteChecks(role: Value, id: string): (r: Outcome<Reply>)
    ensures r == Pass <==> IsStaff(role) && id != ""
    ensures !role.Str? ==> r == Fail(Panicked)
    ensures role == Str(Users.ClientRole) ==> r == Fail(AccessDenied)
    ensures IsStaff(role) && id == "" ==> r == Fail(InvalidRequest)
  {
    match AsString(role)
    case Err(e) => Fail(e)
    case Ok(name) =>
      if name == Users.ClientRole then Fail(AccessDenied)
      else if id == "" then Fail(InvalidRequest)
      else Pass
  }

  /**
   * A non-client updating a book by id with an image the codec wrote gets
   * that image's bytes and mime type through to the service.
   */
  lemma StaffUpdateKeepsImage(role: string, id: string, b: seq<byte>, mime: string)
    requires role != Users.ClientRole && id != ""
    requires ',' !in mime && ';' !in mime
    ensures UpdateChecks(Str(role), true, id, Some(FromBytesToString(Some(b), mime)))
         == Ok((Some(b), if mime == "" then DefaultMime else mime))
  {
    DataUrlRoundTrip(b, mime);
  }
}
