/**
 * The HTTP vocabulary of the core: header values as bytes, header maps keyed by
 * lower-case header names (as the `http` crate stores them), and the response
 * descriptor that challenge and forbid produce.
 */
module Http {
  import opened Results

  newtype byte = x: int | 0 <= x < 256

  /** An `http::HeaderValue`: arbitrary bytes. */
  type HeaderValue = seq<byte>

  /** A header map with one value per (lower-case) header name. */
  type HeaderMap = map<string, HeaderValue>

  const AUTHORIZATION: string := "authorization"
  const WWW_AUTHENTICATE: string := "www-authenticate"

  const UNAUTHORIZED: int := 401
  const FORBIDDEN: int := 403

  /** `AuthResponse { status_code, headers }`. */
  datatype AuthResponse = AuthResponse(statusCode: int, headers: HeaderMap)

  /** The bytes `HeaderValue::to_str` accepts: visible ASCII and horizontal tab. */
  predicate IsVisibleAscii(b: byte) {
    b == 9 || 32 <= b < 127
  }

  predicate IsVisibleText(s: string) {
    forall i :: 0 <= i < |s| ==> s[i] == '\t' || ' ' <= s[i] <= '~'
  }

  /** Reads each byte as the character with the same code. */
  function Latin1(v: HeaderValue): (s: string)
    ensures |s| == |v|
    ensures forall i :: 0 <= i < |v| ==> s[i] as int == v[i] as int
  {
    seq(|v|, i requires 0 <= i < |v| => (v[i] as int) as char)
  }

  /** `HeaderValue::to_str`: the text of the value when every byte is visible ASCII. */
  function ToStr(v: HeaderValue): (r: Option<string>)
    ensures r.Some? <==> forall i :: 0 <= i < |v| ==> IsVisibleAscii(v[i])
    ensures r.Some? ==> r.value == Latin1(v) && IsVisibleText(r.value)
  {
    if forall i :: 0 <= i < |v| ==> IsVisibleAscii(v[i]) then Some(Latin1(v)) else None
  }

  /** `HeaderValue::from_static`: the bytes of a visible ASCII text. */
  function FromStatic(s: string): (v: HeaderValue)
    requires IsVisibleText(s)
    ensures ToStr(v) == Some(s)
  {
    var v := seq(|s|, i requires 0 <= i < |s| => s[i] as int as byte);
    assert Latin1(v) == s;
    v
  }
}
