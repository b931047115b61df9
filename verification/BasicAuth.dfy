/** HTTP basic credentials: the header parser and the authorizer over it
    (section 2 of RFC 7617). Headers, user names and passwords are byte strings. */
module BasicAuth {
  import opened Text
  import opened Base64

  const SPACE: byte := 32
  const COLON: byte := 58
  const BASIC: seq<byte> := [66, 97, 115, 105, 99]

  datatype Credentials = Credentials(username: seq<byte>, password: seq<byte>)

  datatype AuthError = InvalidAuthorizationHeader | Unauthorized

  /** `GetBasicAuth`; an absent header reads as the empty one. */
  function GetBasicAuth(header: seq<byte>): Result<Credentials, AuthError> {
    var splitted := SplitN2(header, SPACE);
    if |splitted| != 2 then Err(InvalidAuthorizationHeader)
    else if splitted[0] != BASIC then Err(InvalidAuthorizationHeader)
    else match Decode(splitted[1])
      case None => Err(InvalidAuthorizationHeader)
      case Some(data) =>
        var up := SplitN2(data, COLON);
        if |up| != 2 then Err(InvalidAuthorizationHeader)
        else Ok(Credentials(up[0], up[1]))
  }

  /** `BasicAuthorizer.Authorize`: `None` lets the request through. */
  function Authorize(config: Credentials, header: seq<byte>): Option<AuthError> {
    match GetBasicAuth(header)
    case Err(e) => Some(e)
    case Ok(given) =>
      if given.username != config.username || given.password != config.password then Some(Unauthorized)
      else None
  }

  function UserPass(c: Credentials): seq<byte> { c.username + [COLON] + c.password }

  /** The header a client sends for the given credentials. */
  function Header(c: Credentials): seq<byte> { BASIC + [SPACE] + Encode(UserPass(c)) }

  lemma BasicHasNoSpace()
    ensures SPACE !in BASIC
  {
  }

  /** Exactly which headers parse to which credentials: the token after
      `Basic ` decodes to `username:password`, and the user name is colon-free. */
  lemma ParsesExactly(token: seq<byte>, c: Credentials)
    ensures GetBasicAuth(BASIC + [SPACE] + token) == Ok(c) <==>
            COLON !in c.username && Decode(token) == Some(UserPass(c))
  {
    BasicHasNoSpace();
    SplitN2Cut(BASIC, SPACE, token);
    match Decode(token)
    case None =>
    case Some(data) =>
      SplitN2Meaning(data, COLON);
      var up := SplitN2(data, COLON);
      if |up| == 2 { assert up == [up[0], up[1]]; }
      if COLON !in c.username && data == UserPass(c) {
        SplitN2Cut(c.username, COLON, c.password);
      }
  }

  /** Every header that parses at all starts with `Basic `. */
  lemma ParsedIsBasic(header: seq<byte>) returns (token: seq<byte>)
    requires GetBasicAuth(header).Ok?
    ensures header == BASIC + [SPACE] + token
  {
    SplitN2Sound(header, SPACE);
    token := SplitN2(header, SPACE)[1];
  }

  /** The header built from a pair is parsed back to exactly that pair, if and
      only if the user name holds no colon. */
  lemma HeaderRoundTrip(c: Credentials)
    ensures GetBasicAuth(Header(c)) == Ok(c) <==> COLON !in c.username
  {
    DecodeEncode(UserPass(c));
    ParsesExactly(Encode(UserPass(c)), c);
  }

  /** The authorizer accepts a header iff it is `Basic ` and a token whose
      canonical base64 text is the encoding of the configured pair, and the
      configured user name is colon-free. */
  lemma AcceptsExactly(config: Credentials, header: seq<byte>)
    ensures Authorize(config, header) == None <==>
            && COLON !in config.username
            && exists token :: header == BASIC + [SPACE] + token
                               && Canonical(Unbroken(token)) == Encode(UserPass(config))
  {
    if Authorize(config, header) == None {
      var token := ParsedIsBasic(header);
      assert GetBasicAuth(header) == Ok(config);
      ParsesExactly(token, config);
      DecodeExactly(token, UserPass(config));
    }
    if token :| header == BASIC + [SPACE] + token && Canonical(Unbroken(token)) == Encode(UserPass(config)) {
      DecodeExactly(token, UserPass(config));
      ParsesExactly(token, config);
    }
  }

  /** A configured user name with a colon locks everybody out; a colon-free one
      lets its own header in. */
  lemma ColonLocksOut(config: Credentials)
    ensures COLON in config.username <==> forall header :: Authorize(config, header) != None
  {
    if COLON in config.username {
      forall header
        ensures Authorize(config, header) != None
      {
        AcceptsExactly(config, header);
      }
    } else {
      HeaderRoundTrip(config);
      assert Authorize(config, Header(config)) == None;
    }
  }

  // ---------------------------------------------------------------- the example of the standard

  const ALADDIN: seq<byte> := [65, 108, 97, 100, 100, 105, 110]
  const OPEN_SESAME: seq<byte> := [111, 112, 101, 110, 32, 115, 101, 115, 97, 109, 101]

  /** `QWxhZGRpbjpvcGVuIHNlc2FtZQ==`. */
  const TOKEN: seq<byte> :=
    [81, 87, 120, 104, 90, 71, 82, 112, 98, 106, 112, 118, 99, 71, 86, 117, 73, 72, 78, 108, 99, 50, 70, 116, 90, 81, 61, 61]

  function Quantum(a: byte, b: byte, c: byte): seq<byte> {
    [Digit(D0(a)), Digit(D1(a, b)), Digit(D2(b, c)), Digit(D3(c))]
  }

  lemma EncodeQuantum(a: byte, b: byte, c: byte, rest: seq<byte>)
    ensures Encode([a, b, c] + rest) == Quantum(a, b, c) + Encode(rest)
  {
    assert ([a, b, c] + rest)[3..] == rest;
  }

  lemma ExampleQuanta()
    ensures Quantum(65, 108, 97) == [81, 87, 120, 104] && Quantum(100, 100, 105) == [90, 71, 82, 112]
    ensures Quantum(110, 58, 111) == [98, 106, 112, 118] && Quantum(112, 101, 110) == [99, 71, 86, 117]
    ensures Quantum(32, 115, 101) == [73, 72, 78, 108] && Quantum(115, 97, 109) == [99, 50, 70, 116]
    ensures Encode([101]) == [90, 81, 61, 61]
  {
  }

  lemma ExampleTail()
    ensures Encode([112, 101, 110, 32, 115, 101, 115, 97, 109, 101])
         == [99, 71, 86, 117, 73, 72, 78, 108, 99, 50, 70, 116, 90, 81, 61, 61]
  {
    ExampleQuanta();
    hide Encode, Quantum;
    var c: seq<byte> := [101];
    var b: seq<byte> := [115, 97, 109] + c;
    var a: seq<byte> := [32, 115, 101] + b;
    EncodeQuantum(115, 97, 109, c);
    EncodeQuantum(32, 115, 101, b);
    EncodeQuantum(112, 101, 110, a);
    assert [112, 101, 110] + a == [112, 101, 110, 32, 115, 101, 115, 97, 109, 101];
  }

  lemma ExampleToken()
    ensures Encode(ALADDIN + [COLON] + OPEN_SESAME) == TOKEN
  {
    ExampleQuanta();
    ExampleTail();
    hide Encode, Quantum;
    var c: seq<byte> := [112, 101, 110, 32, 115, 101, 115, 97, 109, 101];
    var b: seq<byte> := [110, 58, 111] + c;
    var a: seq<byte> := [100, 100, 105] + b;
    EncodeQuantum(110, 58, 111, c);
    EncodeQuantum(100, 100, 105, b);
    EncodeQuantum(65, 108, 97, a);
    assert [65, 108, 97] + a == ALADDIN + [COLON] + OPEN_SESAME;
  }

  /** Section 2 of RFC 7617: `Basic QWxhZGRpbjpvcGVuIHNlc2FtZQ==` is the user
      `Aladdin` with the password `open sesame`, and lets exactly them in. */
  lemma StandardExample(config: Credentials)
    ensures GetBasicAuth([66, 97, 115, 105, 99, 32] + TOKEN) == Ok(Credentials(ALADDIN, OPEN_SESAME))
    ensures Authorize(config, [66, 97, 115, 105, 99, 32] + TOKEN) == None <==> config == Credentials(ALADDIN, OPEN_SESAME)
  {
    hide Encode, Decode, GetBasicAuth;
    var c := Credentials(ALADDIN, OPEN_SESAME);
    ExampleToken();
    DecodeEncode(UserPass(c));
    ParsesExactly(TOKEN, c);
    assert [66, 97, 115, 105, 99, 32] + TOKEN == BASIC + [SPACE] + TOKEN;
  }
}
