/** The Socket.IO handshake check: a connecting socket is accepted only with a token
    that verifies to the id of a stored user who is neither deleted nor blocked, and
    the accepted user is attached to the socket. */
module SocketAuth {
  import opened Optional
  import opened UserStore

  type SocketId = string

  /** The three errors the middleware hands to `next`. */
  datatype AuthError = NoToken | UserUnavailable | VerificationFailed

  function ErrorMessage(e: AuthError): (m: string)
    ensures m != ""
  {
    match e
    case NoToken => "Authentication error: No token provided."
    case UserUnavailable => "Authentication error: User not found, deleted, or blocked."
    case VerificationFailed => "Authentication error: Token verification failed."
  }

  datatype Decision = Accept(user: UserRecord) | Reject(error: AuthError)

  /** The handshake decision.  `token` is `socket.handshake.auth.token` (None or "" is
      falsy); `verify` is `jwt.verify` with the server secret, giving the `id` claim or
      None when it throws; `lookupThrows` says the `findById` query rejects. */
  function Decide(token: Option<string>, verify: string -> Option<UserId>,
                  users: seq<UserRecord>, lookupThrows: bool): (d: Decision)
    ensures d == Reject(NoToken) <==> token.None? || token.value == ""
    ensures d.Accept? <==>
              && token.Some? && token.value != ""
              && verify(token.value).Some?
              && !lookupThrows
              && FindById(users, verify(token.value).value).Some?
              && IsActive(FindById(users, verify(token.value).value).value)
    ensures d.Accept? ==>
              && d.user.id == verify(token.value).value
              && IsActive(d.user)
              && d.user == FindById(users, d.user.id).value.(password := "")
    ensures d == Reject(VerificationFailed) <==>
              token.Some? && token.value != "" && (verify(token.value).None? || lookupThrows)
  {
    if token.None? || token.value == "" then Reject(NoToken)
    else match verify(token.value)
      case None => Reject(VerificationFailed)
      case Some(id) =>
        if lookupThrows then Reject(VerificationFailed)
        else match FindById(users, id)
          case None => Reject(UserUnavailable)
          case Some(u) =>
            if u.isDeleted || u.isBlocked then Reject(UserUnavailable)
            // `.select('-password')`: the attached document carries no password
            else Accept(u.(password := ""))
  }

  /** Blocking or deleting a user shuts every later handshake out, whatever token it carries. */
  lemma InactiveUserNeverAccepted(token: Option<string>, verify: string -> Option<UserId>,
                                  users: seq<UserRecord>, lookupThrows: bool, k: nat)
    requires UniqueIds(users) && k < |users| && !IsActive(users[k])
    ensures Decide(token, verify, users, lookupThrows).Accept? ==>
              Decide(token, verify, users, lookupThrows).user.id != users[k].id
  {
    var d := Decide(token, verify, users, lookupThrows);
    if d.Accept? && d.user.id == users[k].id {
      IndexOfUniqueId(users, k);
      assert false;
    }
  }

  /** A connected socket; `user` is `socket.user`, set by the handshake. */
  class Socket {
    const id: SocketId
    var user: Option<UserRecord>

    constructor (id: SocketId)
      ensures this.id == id && user.None?
    {
      this.id := id;
      user := None;
    }

    /** Runs the middleware on this socket: `socket.user` is written only on acceptance,
        and the error passed to `next` is returned otherwise. */
    method Authenticate(token: Option<string>, verify: string -> Option<UserId>,
                        users: seq<UserRecord>, lookupThrows: bool) returns (err: Option<AuthError>)
      modifies this
      ensures err.None? <==> Decide(token, verify, users, lookupThrows).Accept?
      ensures err.None? ==> user == Some(Decide(token, verify, users, lookupThrows).user)
      ensures err.Some? ==> err.value == Decide(token, verify, users, lookupThrows).error && user == old(user)
    {
      var d := Decide(token, verify, users, lookupThrows);
      match d
      case Accept(u) =>
        user := Some(u);
        err := None;
      case Reject(e) =>
        err := Some(e);
    }
  }
}
