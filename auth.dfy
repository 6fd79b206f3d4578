/** Getting the bearer token out of a request's Authorization header. */
module Auth {
  import opened Outcomes

  newtype byte = b: int | 0 <= b < 256

  const BearerPrefix: string := "Bearer "
  const HeaderMissing: string := "Authorization header is missing"
  const HeaderMalformed: string := "Authorization header is malformed"
  const HeaderNotBearer: string := "Authorization header must start with 'Bearer '"

  /** The codes a header value may hold to be read as text: the visible
      ASCII characters, the space and the horizontal tab. */
  predicate IsVisibleCode(n: int) {
    32 <= n < 127 || n == 9
  }

  predicate IsVisibleAscii(b: byte) {
    IsVisibleCode(b as int)
  }

  predicate IsVisibleText(s: string) {
    forall i :: 0 <= i < |s| ==> IsVisibleCode(s[i] as int)
  }

  /** The bytes of a text made of single-byte characters. */
  function Encode(s: string): (r: seq<byte>)
    requires IsVisibleText(s)
    ensures |r| == |s| && forall i :: 0 <= i < |s| ==> r[i] as int == s[i] as int
  {
    seq(|s|, i requires 0 <= i < |s| => s[i] as int as byte)
  }

  /** A header value read as text: defined only when every byte is visible. */
  function ToStr(value: seq<byte>): (r: Option<string>)
    ensures r.Some? <==> forall i :: 0 <= i < |value| ==> IsVisibleAscii(value[i])
    ensures r.Some? ==> |r.value| == |value| && forall i :: 0 <= i < |value| ==> r.value[i] as int == value[i] as int
  {
    if forall i :: 0 <= i < |value| ==> IsVisibleAscii(value[i])
    then Some(seq(|value|, i requires 0 <= i < |value| => value[i] as int as char))
    else None
  }

  /** Reading the bytes of a visible text gives the text back. */
  lemma {:induction false} ToStrEncode(s: string)
    requires IsVisibleText(s)
    ensures ToStr(Encode(s)) == Some(s)
  {
    var e := Encode(s);
    forall i | 0 <= i < |e| ensures IsVisibleAscii(e[i]) {
      assert e[i] as int == s[i] as int;
    }
    var t := ToStr(e).value;
    assert |t| == |s|;
    forall i | 0 <= i < |s| ensures t[i] == s[i] {
      assert t[i] as int == e[i] as int == s[i] as int;
    }
    assert t == s;
  }

  /** The value of the Authorization header (None when the request has
      none), checked for readable text and stripped of "Bearer " once. */
  function ExtractToken(authorization: Option<seq<byte>>): (r: Result<string>)
    ensures authorization.None? ==> r == Err(Unauthorized(HeaderMissing))
    ensures authorization.Some? && ToStr(authorization.value).None? ==> r == Err(Unauthorized(HeaderMalformed))
    ensures authorization.Some? && ToStr(authorization.value).Some? && !(BearerPrefix <= ToStr(authorization.value).value) ==>
              r == Err(Unauthorized(HeaderNotBearer))
    ensures r.Ok? <==> authorization.Some? && ToStr(authorization.value).Some? && BearerPrefix <= ToStr(authorization.value).value
    ensures r.Ok? ==> BearerPrefix + r.value == ToStr(authorization.value).value
  {
    if authorization.None? then Err(Unauthorized(HeaderMissing))
    else
      var text := ToStr(authorization.value);
      if text.None? then Err(Unauthorized(HeaderMalformed))
      else if BearerPrefix <= text.value then Ok(text.value[|BearerPrefix|..])
      else Err(Unauthorized(HeaderNotBearer))
  }

  /** The token is the header's text without its first seven characters. */
  lemma TokenIsSuffix(authorization: Option<seq<byte>>)
    requires ExtractToken(authorization).Ok?
    ensures |ExtractToken(authorization).value| == |authorization.value| - 7
    ensures ExtractToken(authorization).value == ToStr(authorization.value).value[7..]
  {
  }

  /** "Bearer " followed by a visible token yields that token; the prefix is
      stripped once only, so "Bearer Bearer x" yields "Bearer x". */
  lemma {:induction false} BearerRoundTrip(token: string)
    requires IsVisibleText(token)
    ensures IsVisibleText(BearerPrefix + token)
    ensures ExtractToken(Some(Encode(BearerPrefix + token))) == Ok(token)
  {
    var text := BearerPrefix + token;
    assert forall i :: 0 <= i < |text| ==> IsVisibleCode(text[i] as int) by {
      forall i | 0 <= i < |text| ensures IsVisibleCode(text[i] as int) {
        if i >= |BearerPrefix| {
          assert text[i] == token[i - |BearerPrefix|];
        }
      }
    }
    ToStrEncode(text);
    assert text[|BearerPrefix|..] == token;
  }
}
