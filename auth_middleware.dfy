/**
 * server/src/middleware/authMiddleware.ts: the `protect` middleware. It reads the bearer token
 * from the Authorization header, verifies it, attaches the user it names to the request and
 * passes control on; otherwise it answers 401. jwt.verify is the parameter `verify` (`None` when
 * it throws, otherwise the id in the payload) and the database lookup is the parameter `findById`.
 */
module AuthMiddleware {
  import opened Wrappers
  import opened Ids
  import opened Http
  import Text
  import Store

  /** What `req.user` holds: never assigned, assigned `null`, or a user document without its password. */
  datatype Principal = Unset | Null | Doc(user: Store.User)

  /** The outcome of `User.findById(id).select('-password')`. */
  datatype Lookup = Found(user: Store.User) | Missing | Threw

  const BEARER := "Bearer"
  const TOKEN_FAILED: Reply<()> := Fail(UNAUTHORIZED, "Not authorized, token failed")
  const NO_TOKEN: Reply<()> := Fail(UNAUTHORIZED, "Not authorized, no token")

  /** The parts of an Express request the middleware reads and writes. */
  class Request {
    var authorization: Option<string>
    var user: Principal

    constructor (authorization: Option<string>)
      ensures this.authorization == authorization && user == Unset
    {
      this.authorization := authorization;
      user := Unset;
    }
  }

  /** `header.split(' ')[1]`: the second space-separated field, undefined when the header has no space. */
  function TokenOf(header: string): (t: Option<string>)
    ensures t.Some? <==> ' ' in header
    ensures t.Some? ==> ' ' !in t.value
  {
    var fields := Text.Split(header, ' ');
    Text.SeveralFieldsIffSeparator(header, ' ');
    if |fields| >= 2 then Some(fields[1]) else None
  }

  /** A token JavaScript treats as truthy: present and not the empty string. */
  predicate Present(token: Option<string>) {
    token.Some? && token.value != ""
  }

  /** What a call to `protect` does: the responses it attempts in order, whether it calls `next`, and `req.user` afterwards. */
  datatype Outcome = Outcome(sent: seq<Reply<()>>, nextCalled: bool, user: Principal)

  predicate Bearer(authorization: Option<string>) {
    authorization.Some? && Text.StartsWith(authorization.value, BEARER)
  }

  /** The specification of `protect`. */
  function ProtectSpec(authorization: Option<string>, user: Principal, verify: string -> Option<Id>, findById: Id -> Lookup): (o: Outcome)
    ensures o.nextCalled <==>
      && Bearer(authorization)
      && Present(TokenOf(authorization.value))
      && verify(TokenOf(authorization.value).value).Some?
      && !findById(verify(TokenOf(authorization.value).value).value).Threw?
    ensures o.nextCalled ==> o.sent == []
    ensures o.nextCalled ==>
      match findById(verify(TokenOf(authorization.value).value).value)
      case Found(u) => o.user == Doc(u)
      case _ => o.user == Null
    ensures !o.nextCalled ==> o.sent != [] && o.user == user && forall r :: r in o.sent ==> r.status == UNAUTHORIZED
    ensures |o.sent| == 2 <==> Bearer(authorization) && !Present(TokenOf(authorization.value))
    ensures |o.sent| <= 2
  {
    if Bearer(authorization) then
      var token := TokenOf(authorization.value);
      var tried :=
        if !Present(token) then Outcome([TOKEN_FAILED], false, user)
        else if verify(token.value).None? then Outcome([TOKEN_FAILED], false, user)
        else match findById(verify(token.value).value)
          case Threw => Outcome([TOKEN_FAILED], false, user)
          case Missing => Outcome([], true, Null)
          case Found(u) => Outcome([], true, Doc(u));
      if !Present(token) then tried.(sent := tried.sent + [NO_TOKEN]) else tried
    else
      Outcome([NO_TOKEN], false, user)
  }

  /** `protect`, step by step: `token` is assigned inside the bearer branch and tested again after it. */
  method Protect(req: Request, verify: string -> Option<Id>, findById: Id -> Lookup)
    returns (sent: seq<Reply<()>>, nextCalled: bool)
    modifies req
    ensures req.authorization == old(req.authorization)
    ensures Outcome(sent, nextCalled, req.user) == ProtectSpec(old(req.authorization), old(req.user), verify, findById)
  {
    var token: Option<string> := None;
    sent, nextCalled := [], false;
    if req.authorization.Some? && Text.StartsWith(req.authorization.value, BEARER) {
      token := TokenOf(req.authorization.value);
      // jwt.verify throws on a missing or empty token
      if !Present(token) {
        sent := sent + [TOKEN_FAILED];
      } else {
        var decoded := verify(token.value);
        if decoded.None? {
          sent := sent + [TOKEN_FAILED];
        } else {
          var found := findById(decoded.value);
          match found {
            case Threw =>
              sent := sent + [TOKEN_FAILED];
            case Missing =>
              req.user := Null;
              nextCalled := true;
            case Found(u) =>
              req.user := Doc(u);
              nextCalled := true;
          }
        }
      }
    }
    if !Present(token) {
      sent := sent + [NO_TOKEN];
    }
  }

  /** The token of `Bearer <token>` is `<token>`, whatever follows a further space. */
  lemma {:induction false} TokenAfterFirstSpace(prefix: string, token: string, rest: string)
    requires ' ' !in prefix && ' ' !in token
    ensures TokenOf(prefix + " " + token) == Some(token)
    ensures TokenOf(prefix + " " + token + " " + rest) == Some(token)
  {
    Text.SplitNoSeparator(token, ' ');
    Text.SplitCons(prefix, token, ' ');
    assert prefix + " " + token == prefix + [' '] + token;
    Text.SplitCons(token, rest, ' ');
    Text.SplitCons(prefix, token + " " + rest, ' ');
    assert prefix + " " + token + " " + rest == prefix + [' '] + (token + [' '] + rest);
  }

  /** A header that is missing or does not start with `Bearer` gets exactly the "no token" answer. */
  lemma NoBearerNoToken(authorization: Option<string>, user: Principal, verify: string -> Option<Id>, findById: Id -> Lookup)
    requires !Bearer(authorization)
    ensures ProtectSpec(authorization, user, verify, findById) == Outcome([NO_TOKEN], false, user)
  {
  }

  /** A header made of a scheme starting with `Bearer`, one space and a non-empty token. */
  lemma {:induction false} BearerHeader(scheme: string, token: string)
    requires Text.StartsWith(scheme, BEARER) && ' ' !in scheme && ' ' !in token && token != ""
    ensures Bearer(Some(scheme + " " + token)) && TokenOf(scheme + " " + token) == Some(token)
  {
    TokenAfterFirstSpace(scheme, token, "");
    assert (scheme + " " + token)[..|BEARER|] == scheme[..|BEARER|];
  }

  /** The scheme test is a prefix test: `BearerX abc` is accepted with token `abc`. */
  lemma {:induction false} SchemeIsOnlyAPrefix(verify: string -> Option<Id>, findById: Id -> Lookup, user: Principal, u: Store.User)
    requires verify("abc") == Some(u.id) && findById(u.id) == Found(u)
    ensures ProtectSpec(Some("BearerX abc"), user, verify, findById) == Outcome([], true, Doc(u))
  {
    var scheme := "BearerX";
    assert scheme[..|BEARER|] == BEARER;
    assert forall i :: 0 <= i < |scheme| ==> scheme[i] != ' ';
    BearerHeader(scheme, "abc");
    assert scheme + " " + "abc" == "BearerX abc";
  }

  /** A bare `Bearer` header makes the middleware answer twice: "token failed", then "no token". */
  lemma {:induction false} BareBearerAnswersTwice(user: Principal, verify: string -> Option<Id>, findById: Id -> Lookup)
    ensures ProtectSpec(Some("Bearer"), user, verify, findById).sent == [TOKEN_FAILED, NO_TOKEN]
  {
    assert ' ' !in "Bearer";
  }

  /** A valid token for a deleted user still passes control on, with `req.user` set to `null`. */
  lemma {:induction false} MissingUserStillPasses(token: string, id: Id, user: Principal, verify: string -> Option<Id>, findById: Id -> Lookup)
    requires ' ' !in token && token != "" && verify(token) == Some(id) && findById(id) == Missing
    ensures ProtectSpec(Some(BEARER + " " + token), user, verify, findById) == Outcome([], true, Null)
  {
    BearerHeader(BEARER, token);
  }

  /** A token that fails verification, or a lookup that throws, is answered once with "token failed". */
  lemma {:induction false} RejectedTokenAnswersOnce(token: string, user: Principal, verify: string -> Option<Id>, findById: Id -> Lookup)
    requires ' ' !in token && token != ""
    requires verify(token).None? || findById(verify(token).value).Threw?
    ensures ProtectSpec(Some(BEARER + " " + token), user, verify, findById) == Outcome([TOKEN_FAILED], false, user)
  {
    BearerHeader(BEARER, token);
  }
}
