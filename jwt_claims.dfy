/**
 * The document frontend's `ApiAuthenticationStateProvider`: the token kept
 * in the browser's local storage becomes the signed-in principal. Its claims
 * are read from the token's payload, the second '.'-separated segment of a
 * JSON Web Token (section 3 of RFC 7519), which is base64url without
 * padding (section 2 of RFC 7515).
 */
module JwtClaims {
  import opened Common
  import opened Base64

  /** `string.Split(sep)`: the pieces between separators, empty ones included. */
  function Split(s: string, sep: char): (r: seq<string>)
    ensures |r| >= 1
    ensures forall i :: 0 <= i < |r| ==> sep !in r[i]
    decreases |s|
  {
    if s == [] then [""]
    else if s[0] == sep then [""] + Split(s[1..], sep)
    else
      var rest := Split(s[1..], sep);
      [[s[0]] + rest[0]] + rest[1..]
  }

  /** A string without the separator is one piece. */
  lemma {:induction false} SplitWithoutSeparator(s: string, sep: char)
    requires sep !in s
    ensures Split(s, sep) == [s]
    decreases |s|
  {
    if s != [] {
      SplitWithoutSeparator(s[1..], sep);
      assert [s[0]] + s[1..] == s;
    }
  }

  /** A separator after a piece without one ends that piece. */
  lemma {:induction false} SplitAtSeparator(x: string, sep: char, y: string)
    requires sep !in x
    ensures Split(x + [sep] + y, sep) == [x] + Split(y, sep)
    decreases |x|
  {
    if x == [] {
      assert x + [sep] + y == [sep] + y;
      assert ([sep] + y)[1..] == y;
    } else {
      SplitAtSeparator(x[1..], sep, y);
      assert (x + [sep] + y)[1..] == x[1..] + [sep] + y;
      assert [x[0]] + x[1..] == x;
    }
  }

  /** The three segments of a compact token come back out of `Split('.')`, the payload second. */
  lemma TokenSegments(header: string, payload: string, signature: string)
    requires '.' !in header && '.' !in payload && '.' !in signature
    ensures Split(header + "." + payload + "." + signature, '.') == [header, payload, signature]
  {
    assert header + "." + payload + "." + signature == header + ['.'] + (payload + ['.'] + signature);
    SplitAtSeparator(header, '.', payload + ['.'] + signature);
    SplitAtSeparator(payload, '.', signature);
    SplitWithoutSeparator(signature, '.');
  }

  /**
   * The switch of `ParseBase64WithoutPadding`: a length of 2 modulo 4 gets
   * "==", 3 gets "=", and 0 or 1 is left alone.
   */
  function RestorePadding(s: string): (r: string)
    ensures |s| % 4 != 1 ==> |r| % 4 == 0
    ensures |r| >= |s| && r[..|s|] == s
    ensures forall i :: |s| <= i < |r| ==> r[i] == '='
    ensures |r| - |s| <= 2
  {
    if |s| % 4 == 2 then s + "=="
    else if |s| % 4 == 3 then s + "="
    else s
  }

  /** Four times a count of groups, less at most two, leaves the remainder the padding restores. */
  lemma GroupRemainder(g: nat, p: nat)
    requires p <= 2 && (p > 0 ==> g >= 1)
    ensures (4 * g - p) % 4 == (if p == 0 then 0 else 4 - p)
  {
  }

  /** Restoring the padding of an unpadded encoding gives the padded encoding back. */
  lemma RestoresEncoding(a: Alphabet, b: seq<Byte>)
    ensures RestorePadding(Unpadded(a, b)) == Encode(a, b)
  {
    var p, u := Padding(|b|), Unpadded(a, b);
    assert u + "=="[..p] == Encode(a, b);
    assert |u| == 4 * Groups(|b|) - p;
    GroupRemainder(Groups(|b|), p);
    if p == 0 {
      assert |u| % 4 == 0 && u + "" == u;
    } else if p == 1 {
      assert |u| % 4 == 3;
    } else {
      assert |u| % 4 == 2;
    }
  }

  /** A claim as `ParseClaimsFromJwt` builds it: the JSON key and the value's text. */
  datatype Claim = Claim(kind: string, value: string)

  /** The principal: anonymous, or authenticated by "jwt" with the token's claims. */
  datatype Principal = Anonymous | Authenticated(claims: seq<Claim>)

  /**
   * The payload bytes of `ParseClaimsFromJwt` as written: the second segment,
   * padded, through `Convert.FromBase64String`. `None` where that throws: a
   * token without a '.', or a segment that is not standard base 64.
   */
  function PayloadAsWritten(token: string): Option<seq<Byte>> {
    var parts := Split(token, '.');
    if |parts| < 2 then None else Decode(Standard, RestorePadding(parts[1]))
  }

  /** The payload bytes read with the URL-safe alphabet the token's segments use. */
  function Payload(token: string): Option<seq<Byte>> {
    var parts := Split(token, '.');
    if |parts| < 2 then None else Decode(UrlSafe, RestorePadding(parts[1]))
  }

  /**
   * `GetAuthenticationStateAsync` once local storage has answered `token`:
   * `None` where the call throws. `parse` is the JSON deserialization of the
   * payload into claims (`None` where it throws); `payload` reads the bytes.
   */
  function StateOf(token: Option<string>, payload: string -> Option<seq<Byte>>,
                   parse: seq<Byte> -> Option<seq<Claim>>): (r: Option<Principal>)
    ensures IsNullOrWhiteSpace(token) ==> r == Some(Anonymous)
    ensures !IsNullOrWhiteSpace(token) ==> (r.Some? <==> payload(token.value).Some? && parse(payload(token.value).value).Some?)
    ensures r.Some? && r.value.Authenticated? ==> r.value.claims == parse(payload(token.value).value).value
  {
    if IsNullOrWhiteSpace(token) then Some(Anonymous)
    else
      var bytes := payload(token.value);
      if bytes.None? then None
      else
        var claims := parse(bytes.value);
        if claims.None? then None else Some(Authenticated(claims.value))
  }

  /** The state as written, reading the payload with the standard alphabet. */
  function AuthenticationStateAsWritten(token: Option<string>, parse: seq<Byte> -> Option<seq<Claim>>): Option<Principal> {
    StateOf(token, PayloadAsWritten, parse)
  }

  /** The state with the payload read as base64url. */
  function AuthenticationState(token: Option<string>, parse: seq<Byte> -> Option<seq<Claim>>): Option<Principal> {
    StateOf(token, Payload, parse)
  }

  /** Every compact token's payload reads back as the bytes it encodes. */
  lemma PayloadOfToken(header: string, b: seq<Byte>, signature: string)
    requires '.' !in header && '.' !in signature
    ensures Payload(header + "." + Unpadded(UrlSafe, b) + "." + signature) == Some(b)
  {
    var p := Unpadded(UrlSafe, b);
    assert '.' !in p by {
      forall i | 0 <= i < |p| ensures p[i] != '.' { }
    }
    TokenSegments(header, p, signature);
    RestoresEncoding(UrlSafe, b);
    DecodeEncode(UrlSafe, b);
  }

  /**
   * As written, a payload whose base64url text holds '-' or '_' makes
   * `Convert.FromBase64String` throw: the byte 0xFB encodes to "-w".
   */
  lemma UrlSafePayloadThrowsAsWritten(parse: seq<Byte> -> Option<seq<Claim>>)
    ensures Unpadded(UrlSafe, [0xFB]) == "-w"
    ensures PayloadAsWritten(".-w.") == None
    ensures AuthenticationStateAsWritten(Some(".-w."), parse) == None
    ensures Payload(".-w.") == Some([0xFB])
  {
    assert Encode(UrlSafe, [0xFB]) == "-w==";
    assert Unpadded(UrlSafe, [0xFB]) + "==" == "-w==";
    TokenSegments("", "-w", "");
    assert "" + "." + "-w" + "." + "" == ".-w.";
    assert Value(Standard, '-') == None;
    assert RestorePadding("-w") == "-w==";
    assert GroupValue(Standard, "-w==" [..2] + "AA") == None;
    PayloadOfToken("", [0xFB], "");
  }
}
