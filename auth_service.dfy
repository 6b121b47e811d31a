/** `AuthService`: registration with a unique e-mail and the USER role, and
    login that answers every failure with the same message. The password
    encoder, the token issuer and the authentication manager are foreign
    beans; they are modelled as opaque functions the service is built with. */
module AuthService {
  import opened Common
  import opened Seqs
  import opened Entities
  import opened Dtos
  import opened Store

  const EmailTaken: string := "Email already registered"
  const BadCredentials: string := "Invalid email or password"

  function EmailIs(email: string): User -> bool { (v: User) => v.email == email }

  /** `userRepository.existsByEmail`. */
  function ExistsByEmail(us: seq<User>, email: string): (b: bool)
    ensures b <==> exists v :: v in us && v.email == email
  {
    var f := Filter(us, EmailIs(email));
    assert f != [] ==> f[0] in f;
    f != []
  }

  /** `userRepository.findByEmail`: the user with that e-mail, which the
      unique constraint makes the only one. */
  function FindByEmail(us: seq<User>, email: string): (r: Option<User>)
    ensures r.Some? ==> r.value in us && r.value.email == email
    ensures r.None? <==> !ExistsByEmail(us, email)
    ensures EmailsUnique(us) ==> forall v :: v in us && v.email == email ==> r == Some(v)
  {
    var f := Filter(us, EmailIs(email));
    assert f != [] ==> f[0] in f;
    if f == [] then None else Some(f[0])
  }

  /** The response carrying a user's details and a token issued for them. */
  function Granted(v: User, generateToken: (User, string) -> string): (r: AuthResponse)
    ensures r.Authenticated? && r.id == v.id && r.email == v.email && r.name == v.name
    ensures r.role == RoleName(v.role) && r.token == generateToken(v, RoleName(v.role))
  {
    Authenticated(generateToken(v, RoleName(v.role)), v.email, v.name, RoleName(v.role), v.id)
  }

  class AuthService {
    const db: Store
    /** `passwordEncoder.encode`. */
    const encode: string -> string
    /** `jwtUtil.generateToken(user, roleName)`. */
    const generateToken: (User, string) -> string
    /** Whether `authenticationManager.authenticate` accepts the e-mail and
        password (it throws otherwise). */
    const authenticate: (string, string) -> bool

    constructor (db: Store, encode: string -> string, generateToken: (User, string) -> string, authenticate: (string, string) -> bool)
      ensures this.db == db && this.encode == encode
      ensures this.generateToken == generateToken && this.authenticate == authenticate
    {
      this.db := db;
      this.encode := encode;
      this.generateToken := generateToken;
      this.authenticate := authenticate;
    }

    /** `register`: a taken e-mail is refused with a message and nothing is
        saved; otherwise one new USER with the encoded password is saved and
        the response carries its details and a token. */
    method Register(req: AuthRequest) returns (r: AuthResponse)
      requires db.Valid()
      modifies db`users, db`nextUserId
      ensures db.Valid()
      ensures r == Rejected(EmailTaken) <==> old(ExistsByEmail(db.users, req.email))
      ensures r.Authenticated? <==> !old(ExistsByEmail(db.users, req.email))
      ensures r.Rejected? ==> db.users == old(db.users) && db.nextUserId == old(db.nextUserId)
      ensures r.Authenticated? ==>
                var v := User(old(db.nextUserId), req.email, req.name, encode(req.password), Role.USER);
                && db.users == old(db.users) + [v]
                && db.nextUserId == old(db.nextUserId) + 1
                && r == Granted(v, generateToken)
    {
      if ExistsByEmail(db.users, req.email) {
        return Rejected(EmailTaken);
      }
      var v := User(db.nextUserId, req.email, req.name, encode(req.password), Role.USER);
      db.SaveUser(v);
      r := Granted(v, generateToken);
    }

    /** `login`: the stored user's details and a token when the credentials
        are accepted and the user is found; the one generic message for any
        failure. */
    function Login(req: AuthRequest): (r: AuthResponse)
      reads db
      requires db.Valid()
      ensures r.Rejected? ==> r.message == BadCredentials
      ensures r.Rejected? <==> !authenticate(req.email, req.password) || !ExistsByEmail(db.users, req.email)
      ensures r.Authenticated? ==>
                exists v :: v in db.users && v.email == req.email && r == Granted(v, generateToken)
    {
      if !authenticate(req.email, req.password) then Rejected(BadCredentials)
      else match FindByEmail(db.users, req.email)
        case None => Rejected(BadCredentials)
        case Some(v) => Granted(v, generateToken)
    }
  }

  // ---------------------------------------------------------------- properties

  /** Adding a user with an e-mail nobody has keeps e-mails unique, and that
      user is then the one found by the e-mail. */
  lemma RegisteredIsFound(us: seq<User>, v: User)
    requires EmailsUnique(us) && !ExistsByEmail(us, v.email)
    ensures EmailsUnique(us + [v])
    ensures FindByEmail(us + [v], v.email) == Some(v)
  {
    assert v in us + [v];
  }

  /** A second registration with the same e-mail is refused: the e-mail is
      taken once the first has been saved. */
  lemma EmailTakenAfterRegister(us: seq<User>, v: User, email: string)
    requires v.email == email
    ensures ExistsByEmail(us + [v], email)
  {
    assert v in us + [v];
  }
}
