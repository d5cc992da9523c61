/**
 * `AuthController`: `/auth/token` hands the request to `authenticate`
 * unchanged; `/auth/token/email` first reads the username field as an email
 * and, when a user has that email, replaces it by that user's username.
 * `AuthService.authenticate` is opaque.
 */
module AuthController {
  import opened Wrappers
  import opened Entities
  import opened UserStore

  /** The login form; bean validation (`@NotBlank` on both fields) runs before the controller. */
  datatype TokenRequest = TokenRequest(username: string, password: string)

  /** The token answer of `authenticate`. */
  datatype TokenResponse = TokenResponse(token: string)

  /** `AuthService.authenticate`. */
  type Authenticator = TokenRequest -> TokenResponse

  /** The one request handed to `authenticate`, and its answer. */
  datatype Login = Login(authenticated: TokenRequest, response: TokenResponse)

  /** `POST /auth/token`. */
  function Token(req: TokenRequest, authenticate: Authenticator): (r: Login)
    ensures r.authenticated == req
    ensures r.response == authenticate(req)
  {
    Login(req, authenticate(req))
  }

  /** `POST /auth/token/email`. */
  function TokenEmail(s: Store, req: TokenRequest, authenticate: Authenticator): (r: Login)
    requires Valid(s)
    ensures r.response == authenticate(r.authenticated)
    ensures r.authenticated.password == req.password
    ensures forall id :: id in s.rows && s.rows[id].email == req.username ==>
      r.authenticated.username == s.rows[id].username
    ensures !HasEmail(s, req.username) ==> r.authenticated == req
  {
    var forwarded :=
      match FindByEmail(s, req.username)
      case Some(u) => req.(username := u.username)
      case None => req;
    Login(forwarded, authenticate(forwarded))
  }

  /** When no user has the typed text as email, the email login is the plain login. */
  lemma EmailLoginFallsBack(s: Store, req: TokenRequest, authenticate: Authenticator)
    requires Valid(s) && !HasEmail(s, req.username)
    ensures TokenEmail(s, req, authenticate) == Token(req, authenticate)
  {
  }

  /** When a user has the typed text as email, the email login is the plain login with that user's username. */
  lemma EmailLoginResolves(s: Store, req: TokenRequest, authenticate: Authenticator, u: User)
    requires Valid(s) && u in s.rows.Values && u.email == req.username
    ensures TokenEmail(s, req, authenticate) == Token(TokenRequest(u.username, req.password), authenticate)
  {
  }
}
