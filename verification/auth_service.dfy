/** The authentication service: the stored credential, reading the current
    user's claims out of it, and what login, register and logout do to it.
    The browser's `localStorage` entry `'user'` is a single optional string. */
module AuthService {
  import opened Outcomes
  import opened JsStrings
  import opened JsValues
  import opened Base64
  import opened Http

  /** The `'user'` entry of `localStorage`: absent, or a string. */
  type Store = Option<string>

  /** The claims of a decoded token that the client reads. */
  datatype Claims = Claims(sub: Value, id: Value)

  /** The steps `decodeJWT` takes after `atob`: percent-encoding each byte,
      `decodeURIComponent` (UTF-8) and `JSON.parse`. The model takes them as
      one given function; `None` means that one of them threw, or that the
      payload was the JSON literal `null`. */
  type ClaimsParser = seq<Byte> -> Option<Claims>

  /** `token.split('.')[1]`: the second dot-separated segment, which a
      compact JWS holds its payload in (section 7.1 of RFC 7515); `None`
      for JavaScript's undefined when the token has no dot. */
  function PayloadSegment(token: string): (r: Option<string>)
    ensures r.None? <==> '.' !in token
  {
    var parts := Split(token, '.');
    NoDotOneSegment(token);
    if |parts| >= 2 then Some(parts[1]) else None
  }

  /** Splitting on dots gives one piece exactly when there is no dot. */
  lemma NoDotOneSegment(token: string)
    ensures |Split(token, '.')| == 1 <==> '.' !in token
  {
    var parts := Split(token, '.');
    JoinSplit(token, '.');
    if |parts| == 1 {
      assert token == parts[0];
    } else {
      assert token == parts[0] + ['.'] + Join(parts[1..], '.');
      assert token[|parts[0]|] == '.';
    }
  }

  /** `decodeJWT(token)`: the payload segment, mapped from the base64url
      alphabet to the standard one, through `atob`, then parsed. Every
      failure on the way, including a token without a dot, is `None` (the
      source catches and returns null); nothing is thrown. */
  function DecodeJwt(token: string, parse: ClaimsParser): (r: Option<Claims>)
    ensures '.' !in token ==> r == None
  {
    match PayloadSegment(token)
    case None => None
    case Some(segment) =>
      match AtoB(ToStandardAlphabet(segment))
      case None => None
      case Some(bytes) => parse(bytes)
  }

  /** `token.replace(/^"(.*)"$/, '$1')` matches. `.` does not match a line
      terminator, so a token with one between its quotes keeps them. */
  predicate IsQuoted(token: string) {
    && |token| >= 2
    && token[0] == '"'
    && token[|token| - 1] == '"'
    && forall k :: 1 <= k < |token| - 1 ==> !IsLineTerminator(token[k])
  }

  /** `token.replace(/^"(.*)"$/, '$1')`: the outer pair of quotes removed
      when the whole token is quoted; any other token unchanged. */
  function StripQuotes(token: string): (r: string)
    ensures IsQuoted(token) ==> token == "\"" + r + "\""
    ensures !IsQuoted(token) ==> r == token
  {
    if IsQuoted(token) then token[1..|token| - 1] else token
  }

  /** Quoting and stripping: exactly one pair comes off, so a doubly quoted
      token keeps its inner pair. */
  lemma StripQuotesOfQuoted(inner: string)
    requires forall k :: 0 <= k < |inner| ==> !IsLineTerminator(inner[k])
    ensures StripQuotes("\"" + inner + "\"") == inner
  {
    var t := "\"" + inner + "\"";
    forall k | 1 <= k < |t| - 1 ensures !IsLineTerminator(t[k]) {
      assert t[k] == inner[k - 1];
    }
    assert t[1..|t| - 1] == inner;
  }

  /** `getCurrentUser()`: null when nothing (or the empty string) is stored,
      otherwise the decoded claims of the stored token without its quotes. */
  function GetCurrentUser(store: Store, parse: ClaimsParser): (r: Option<Claims>)
    ensures store == None || store == Some("") ==> r == None
  {
    match store
    case None => None
    case Some(token) => if token == "" then None else DecodeJwt(StripQuotes(token), parse)
  }

  /** `currentUser?.sub`. */
  function SubOf(user: Option<Claims>): Value {
    match user
    case None => Undefined
    case Some(c) => c.sub
  }

  /** `logout()`: the stored credential is removed. */
  function Logout(store: Store): (r: Store)
    ensures forall parse: ClaimsParser :: GetCurrentUser(r, parse) == None
  {
    None
  }

  /** `login(...)` once the server answered with `jwt_token`: a truthy token
      is stored (as its string form); otherwise the store is unchanged. */
  function Login(store: Store, jwtToken: Value): (r: Store)
    ensures Truthy(jwtToken) ==> r == Some(ToStr(jwtToken))
    ensures !Truthy(jwtToken) ==> r == store
  {
    if Truthy(jwtToken) then Some(ToStr(jwtToken)) else store
  }

  /** `register(...)` once the server answered: when the answer has a truthy
      `token`, the whole answer, serialized by `JSON.stringify`, is stored. */
  function Register(store: Store, token: Value, serializedAnswer: string): (r: Store)
    ensures Truthy(token) ==> r == Some(serializedAnswer)
    ensures !Truthy(token) ==> r == store
  {
    if Truthy(token) then Some(serializedAnswer) else store
  }

  /** The body `register` posts. */
  datatype RegisterData = RegisterData(
    username: Value, email: Value, password: Value,
    dateOfBirth: string, firstName: string, lastName: string)

  const RegisterDateOfBirth: string := "1995-06-07"
  const RegisterFirstName: string := "John"
  const RegisterLastName: string := "Doe"

  /** The `register` body: the date of birth argument is not used; the date
      of birth and the names are fixed. */
  function RegisterPayload(username: Value, email: Value, password: Value, dateOfBirth: Value): (d: RegisterData)
    ensures d.dateOfBirth == RegisterDateOfBirth
    ensures d.firstName == RegisterFirstName && d.lastName == RegisterLastName
    ensures d.username == username && d.email == email && d.password == password
  {
    RegisterData(username, email, password, RegisterDateOfBirth, RegisterFirstName, RegisterLastName)
  }

  /** The request `register` posts its body with. */
  function RegisterRequest(api: string): Request {
    Request(Post, api + "/users/users/")
  }

  /** The date of birth the user entered never reaches the server. */
  lemma RegisterIgnoresDateOfBirth(username: Value, email: Value, password: Value, d1: Value, d2: Value)
    ensures RegisterPayload(username, email, password, d1) == RegisterPayload(username, email, password, d2)
  {
  }

  /** A compact token `header.payload.signature` (or `header.payload`) whose
      payload segment is the unpadded base64url encoding of some bytes
      decodes to whatever those bytes parse to. */
  lemma DecodeJwtOfEncoded(header: string, payload: seq<Byte>, signature: Option<string>, parse: ClaimsParser)
    requires '.' !in header
    requires signature.Some? ==> '.' !in signature.value
    ensures var segment := EncodeUnpadded(payload, true);
            var token := if signature.Some? then header + "." + segment + "." + signature.value
                         else header + "." + segment;
            DecodeJwt(token, parse) == parse(payload)
  {
    var segment := EncodeUnpadded(payload, true);
    SegmentHasNoDot(payload);
    SegmentOfToken(header, segment, signature);
    SegmentDecodes(payload);
  }

  /** The second dot-separated piece of a token whose pieces hold no dot. */
  lemma SegmentOfToken(header: string, segment: string, signature: Option<string>)
    requires '.' !in header && '.' !in segment
    requires signature.Some? ==> '.' !in signature.value
    ensures var token := if signature.Some? then header + "." + segment + "." + signature.value
                         else header + "." + segment;
            PayloadSegment(token) == Some(segment)
  {
    if signature.Some? {
      JoinThree(header, segment, signature.value);
      SplitJoin([header, segment, signature.value], '.');
    } else {
      JoinTwo(header, segment);
      SplitJoin([header, segment], '.');
    }
  }

  /** Two pieces joined by a dot. */
  lemma JoinTwo(a: string, b: string)
    ensures Join([a, b], '.') == a + "." + b
  {
    assert [a, b][1..] == [b];
  }

  /** Three pieces joined by dots. */
  lemma JoinThree(a: string, b: string, c: string)
    ensures Join([a, b, c], '.') == a + "." + b + "." + c
  {
    assert [a, b, c][1..] == [b, c];
    JoinTwo(b, c);
    assert a + "." + (b + "." + c) == a + "." + b + "." + c;
  }

  /** A URL-safe unpadded payload segment decodes back to its bytes. */
  lemma SegmentDecodes(payload: seq<Byte>)
    ensures AtoB(ToStandardAlphabet(EncodeUnpadded(payload, true))) == Some(payload)
  {
    StandardOfUrl(payload);
    AtoBUnpadded(payload);
  }

  /** The URL-safe alphabet has no dot. */
  lemma SegmentHasNoDot(payload: seq<Byte>)
    ensures '.' !in EncodeUnpadded(payload, true)
  {
    var s := EncodeUnpadded(payload, true);
    forall k | 0 <= k < |s| ensures s[k] != '.' {
      assert s[k] == Letter(Sextets(payload)[k], true);
    }
  }

  /** After logging in with such a token, the current user is the parsed
      payload; after logging out there is none. */
  lemma LoginThenLogout(store: Store, header: string, payload: seq<Byte>, signature: string, parse: ClaimsParser)
    requires '.' !in header && '"' !in header
    requires '.' !in signature
    ensures var token := header + "." + EncodeUnpadded(payload, true) + "." + signature;
            && GetCurrentUser(Login(store, Str(token)), parse) == parse(payload)
            && GetCurrentUser(Logout(Login(store, Str(token))), parse) == None
  {
    var segment := EncodeUnpadded(payload, true);
    var token := header + "." + segment + "." + signature;
    DecodeJwtOfEncoded(header, payload, Some(signature), parse);
    UnquotedToken(header, segment, signature);
    StoredTokenDecodes(store, token, parse);
  }

  /** A stored unquoted token is decoded as it is. */
  lemma StoredTokenDecodes(store: Store, token: string, parse: ClaimsParser)
    requires token != [] && !IsQuoted(token)
    ensures GetCurrentUser(Login(store, Str(token)), parse) == DecodeJwt(token, parse)
  {
  }

  /** A token that starts with a quote-free header and a dot is not quoted. */
  lemma UnquotedToken(header: string, segment: string, signature: string)
    requires '"' !in header
    ensures var token := header + "." + segment + "." + signature;
            token != [] && !IsQuoted(token)
  {
    var token := header + "." + segment + "." + signature;
    if header == [] {
      assert token[0] == '.';
    } else {
      assert token[0] == header[0];
    }
  }
}
