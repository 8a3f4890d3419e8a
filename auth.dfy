/** The auth routes: the email and password validators, the Bearer header
    check of the local auth middleware, the order of the login checks and
    the defaults signup fills in. bcrypt and JWT are parameters. */
module Auth {

  import opened Wrappers
  import opened Seqs
  import opened Text
  import opened Model

  // ---------------------------------------------------------------------
  // isValidEmail: /^[^\s@]+@[^\s@]+\.[^\s@]+$/

  /** A character of the class [^\s@]. */
  predicate Plain(c: char)
  {
    !IsSpace(c) && c != '@'
  }

  predicate AllPlain(s: string)
  {
    forall k :: 0 <= k < |s| ==> Plain(s[k])
  }

  /** The regular expression scanned left to right: the address has an '@'
      with plain characters before it, and what follows the '@' is plain
      and has a '.' that is neither its first nor its last character. */
  predicate IsValidEmail(e: string)
  {
    match FindIndex((c: char) => c == '@', e)
    case None => false
    case Some(k) =>
      var local, domain := e[..k], e[k + 1..];
      && local != [] && AllPlain(local) && AllPlain(domain)
      && exists p :: 1 <= p < |domain| - 1 && domain[p] == '.'
  }

  /** e is local@host.top with every part a non-empty run of [^\s@]. */
  predicate Shaped(e: string, local: string, host: string, top: string)
  {
    && local != [] && host != [] && top != []
    && AllPlain(local) && AllPlain(host) && AllPlain(top)
    && e == local + "@" + (host + "." + top)
  }

  /** isValidEmail holds exactly for the addresses L@X.Y whose parts are
      non-empty runs of characters other than whitespace and '@'; X may
      itself contain dots. */
  lemma IsValidEmailMeans(e: string)
    ensures IsValidEmail(e) <==> exists l, x, y :: Shaped(e, l, x, y)
  {
    if IsValidEmail(e) {
      var local, host, top := ValidIsShaped(e);
    }
    if exists l, x, y :: Shaped(e, l, x, y) {
      var l, x, y :| Shaped(e, l, x, y);
      ShapedIsValid(e, l, x, y);
    }
  }

  /** A valid email splits at its first '@' and at a '.' of its domain. */
  lemma ValidIsShaped(e: string) returns (local: string, host: string, top: string)
    requires IsValidEmail(e)
    ensures Shaped(e, local, host, top)
  {
    var at := (c: char) => c == '@';
    var k := FindIndex(at, e).value;
    var domain := e[k + 1..];
    local := e[..k];
    var p :| 1 <= p < |domain| - 1 && domain[p] == '.';
    host, top := domain[..p], domain[p + 1..];
    assert domain == host + "." + top by {
      assert domain == domain[..p] + [domain[p]] + domain[p + 1..];
    }
    assert e == local + "@" + domain by {
      assert e[k] == '@';
      assert e == e[..k] + [e[k]] + e[k + 1..];
    }
    assert AllPlain(host) by {
      forall j | 0 <= j < |host| ensures Plain(host[j]) {
        assert host[j] == domain[j];
      }
    }
    assert AllPlain(top) by {
      forall j | 0 <= j < |top| ensures Plain(top[j]) {
        assert top[j] == domain[p + 1 + j];
      }
    }
  }

  lemma ShapedIsValid(e: string, l: string, x: string, y: string)
    requires Shaped(e, l, x, y)
    ensures IsValidEmail(e)
  {
    var at := (c: char) => c == '@';
    var domain := x + "." + y;
    assert e == l + "@" + domain;
    assert e[|l|] == '@';
    assert forall j :: 0 <= j < |l| ==> e[j] == l[j];
    assert FindIndex(at, e) == Some(|l|) by {
      var r := FindIndex(at, e);
      assert r.Some?;
      assert !(r.value < |l|);
    }
    assert e[..|l|] == l && e[|l| + 1..] == domain;
    assert domain[|x|] == '.';
    forall j | 0 <= j < |domain| ensures Plain(domain[j]) {
      if j < |x| {
        assert domain[j] == x[j];
      } else if j > |x| {
        assert domain[j] == y[j - |x| - 1];
      }
    }
  }

  /** isValidPassword: a string whose length (in UTF-16 code units) is at
      least six; None stands for
      a value that is not a string. Neither route calls it. */
  predicate IsValidPassword(p: Option<string>)
  {
    p.Some? && Utf16Length(p.value) >= 6
  }

  // ---------------------------------------------------------------------
  // The auth middleware

  /** authHeader.startsWith('Bearer ') ? authHeader.slice(7) : null, with a
      missing header read as "". */
  function BearerToken(header: Option<string>): (r: Option<string>)
    ensures r.Some? <==> header.Some? && StartsWith(header.value, "Bearer ")
    ensures r.Some? ==> header.value == "Bearer " + r.value
  {
    var h := if header.Some? then header.value else "";
    if StartsWith(h, "Bearer ") then
      assert h == h[..7] + h[7..];
      Some(h[7..])
    else None
  }

  lemma BearerTokenOf(t: string)
    ensures BearerToken(Some("Bearer " + t)) == Some(t)
  {
    var h := "Bearer " + t;
    assert h[..7] == "Bearer " && h[7..] == t;
  }

  /** The local auth middleware: no token, or an empty one, is 401
      "Unauthorized"; a token jwt.verify refuses is 401 "Invalid token";
      otherwise the request runs as the user the token names. */
  function Authenticate(header: Option<string>, verify: string -> Option<Id>): (r: Result<Id>)
    ensures r == Err(Unauthorized) <==> BearerToken(header).None? || BearerToken(header) == Some("")
    ensures r == Err(InvalidToken) <==>
      BearerToken(header).Some? && BearerToken(header).value != "" && verify(BearerToken(header).value).None?
    ensures r.Ok? ==> header.Some? && |header.value| > 7 && verify(header.value[7..]) == Some(r.value)
  {
    match BearerToken(header)
    case None => Err(Unauthorized)
    case Some(token) =>
      if token == "" then Err(Unauthorized)
      else
        assert header.value[7..] == token;
        match verify(token)
        case None => Err(InvalidToken)
        case Some(uid) => Ok(uid)
  }

  /** A request is let through exactly when its header is "Bearer " followed
      by a non-empty token that jwt.verify accepts. */
  lemma AuthenticateMeans(header: Option<string>, verify: string -> Option<Id>)
    ensures Authenticate(header, verify).Ok? <==>
      exists t :: header == Some("Bearer " + t) && t != "" && verify(t).Some?
  {
    if exists t :: header == Some("Bearer " + t) && t != "" && verify(t).Some? {
      var t :| header == Some("Bearer " + t) && t != "" && verify(t).Some?;
      BearerTokenOf(t);
    }
    if Authenticate(header, verify).Ok? {
      var t := BearerToken(header).value;
      assert header == Some("Bearer " + t);
    }
  }

  // ---------------------------------------------------------------------
  // POST /auth/login

  /** POST /auth/login, up to the token: the email is trimmed and
      lower-cased, a missing email or password is "". The checks: either one
      empty (400), the email malformed (400), no user with that email (404),
      bcrypt.compare refusing the password against the stored hash (400).
      The user found is what jwt.sign receives. */
  function Login(l: Ledger, email: string, password: string, compare: (string, string) -> bool): (r: Result<User>)
    ensures r == Err(MissingFields) <==> NormaliseEmail(email) == [] || password == []
    ensures r == Err(InvalidEmail) <==>
      NormaliseEmail(email) != [] && password != [] && !IsValidEmail(NormaliseEmail(email))
    ensures r == Err(UserDoesNotExist) <==>
      && NormaliseEmail(email) != [] && password != [] && IsValidEmail(NormaliseEmail(email))
      && forall u :: u in l.users ==> u.email != NormaliseEmail(email)
    ensures r == Err(InvalidPassword) ==> exists u :: u in l.users && u.email == NormaliseEmail(email) && !compare(password, u.password)
    ensures r.Ok? ==>
      && r.value in l.users && r.value.email == NormaliseEmail(email)
      && IsValidEmail(r.value.email) && compare(password, r.value.password)
    ensures r.Err? ==> r.error in {MissingFields, InvalidEmail, UserDoesNotExist, InvalidPassword}
  {
    LoginChecks(l, NormaliseEmail(email), password, compare)
  }

  /** The checks of the login route on the email once it is normalised. */
  function LoginChecks(l: Ledger, e: string, password: string, compare: (string, string) -> bool): (r: Result<User>)
    ensures r == Err(MissingFields) <==> e == [] || password == []
    ensures r == Err(InvalidEmail) <==> e != [] && password != [] && !IsValidEmail(e)
    ensures r == Err(UserDoesNotExist) <==>
      e != [] && password != [] && IsValidEmail(e) && forall u :: u in l.users ==> u.email != e
    ensures r == Err(InvalidPassword) ==> exists u :: u in l.users && u.email == e && !compare(password, u.password)
    ensures r.Ok? ==> r.value in l.users && r.value.email == e && IsValidEmail(e) && compare(password, r.value.password)
    ensures r.Err? ==> r.error in {MissingFields, InvalidEmail, UserDoesNotExist, InvalidPassword}
  {
    if e == [] || password == [] then Err(MissingFields)
    else if !IsValidEmail(e) then Err(InvalidEmail)
    else
      match FindUserByEmail(l.users, e)
      case None => Err(UserDoesNotExist)
      case Some(k) =>
        if !compare(password, l.users[k].password) then Err(InvalidPassword)
        else Ok(l.users[k])
  }

  // ---------------------------------------------------------------------
  // POST /auth/signup

  /** The body fields signup reads; a missing or falsy string is "",
      walletBalance is None when missing, isActive is None when it is not a
      boolean. */
  datatype SignupRequest = SignupRequest(
    name: string,
    email: string,
    password: string,
    walletBalance: Option<int>,
    isActive: Option<bool>)

  /** walletBalance || 0. */
  function OpeningBalance(w: Option<int>): int
  {
    match w
    case None => 0
    case Some(v) => v
  }

  /** typeof isActive === 'boolean' ? isActive : true. */
  function ActiveFlag(a: Option<bool>): bool
  {
    match a
    case None => true
    case Some(b) => b
  }

  /** The document new User(...) builds, after the schema's trim and
      lowercase setters. */
  function NewUser(req: SignupRequest, newId: Id, hashed: string): User
  {
    User(newId, Trim(req.name), NormaliseEmail(req.email), hashed, OpeningBalance(req.walletBalance), ActiveFlag(req.isActive))
  }

  /** The document can be saved: the schema accepts it and neither its id
      nor its email (the unique index) is taken. */
  predicate Saveable(l: Ledger, u: User)
  {
    UserValid(u) && FindUser(l.users, u.id).None? && FindUserByEmail(l.users, u.email).None?
  }

  /** POST /auth/signup: a missing name, email or password is 400; an email
      already stored is 400, where findOne casts the filter through the
      email path's trim and lowercase setters, so the stored email is
      compared with the normalised one; the password is hashed and a user
      saved with walletBalance defaulting to 0 and isActive to true. A
      document the schema or the unique id refuses (a name that trims below
      two characters, a negative balance, an all-whitespace email) is a
      500. */
  function Signup(l: Ledger, req: SignupRequest, newId: Id, hash: string -> string): (s: Step<User>)
    ensures s.response.Err? ==> s.after == l
    ensures s.response.Ok? ==> s.after == l.(users := l.users + [s.response.value])
    ensures s.response == Err(MissingRequiredFields) <==> req.name == [] || req.email == [] || req.password == []
    ensures s.response == Err(EmailInUse) <==>
      && req.name != [] && req.email != [] && req.password != []
      && exists u :: u in l.users && u.email == NormaliseEmail(req.email)
    ensures s.response == Err(ServerError) <==>
      && req.name != [] && req.email != [] && req.password != []
      && (forall u :: u in l.users ==> u.email != NormaliseEmail(req.email))
      && !Saveable(l, NewUser(req, newId, hash(req.password)))
    ensures s.response.Ok? ==>
      var u := s.response.value;
      && u.id == newId && u.name == Trim(req.name) && u.email == NormaliseEmail(req.email)
      && u.password == hash(req.password)
      && (req.walletBalance.None? ==> u.walletBalance == 0)
      && (req.walletBalance.Some? ==> u.walletBalance == req.walletBalance.value)
      && (req.isActive.None? ==> u.isActive)
      && (req.isActive.Some? ==> u.isActive == req.isActive.value)
      && Saveable(l, u)
  {
    if req.name == [] || req.email == [] || req.password == [] then Step(l, Err(MissingRequiredFields))
    else if FindUserByEmail(l.users, NormaliseEmail(req.email)).Some? then Step(l, Err(EmailInUse))
    else
      var u := NewUser(req, newId, hash(req.password));
      if !Saveable(l, u) then Step(l, Err(ServerError))
      else Step(l.(users := l.users + [u]), Ok(u))
  }

  /** Signup keeps the store valid. */
  lemma SignupValid(l: Ledger, req: SignupRequest, newId: Id, hash: string -> string)
    requires LedgerValid(l)
    ensures LedgerValid(Signup(l, req, newId, hash).after)
  {
    var s := Signup(l, req, newId, hash);
    if s.response.Ok? {
      AppendUserValid(l, s.response.value);
    }
  }

  /** Appending a saveable user keeps ids and emails unique. */
  lemma AppendUserValid(l: Ledger, u: User)
    requires LedgerValid(l) && Saveable(l, u)
    ensures LedgerValid(l.(users := l.users + [u]))
  {
    UniqueByAppend(UserKey, l.users, u);
    UniqueByAppend(UserEmail, l.users, u);
    assert forall v :: v in l.users + [u] ==> v in l.users || v == u;
  }

  /** A user who has just signed up can log in with the same email, in any
      case and with any surrounding whitespace, and password, provided the
      email passes the validator and bcrypt.compare accepts the password
      against its own hash. */
  lemma SignupThenLogin(l: Ledger, req: SignupRequest, newId: Id, hash: string -> string, compare: (string, string) -> bool, email: string)
    requires Signup(l, req, newId, hash).response.Ok?
    requires NormaliseEmail(email) == NormaliseEmail(req.email)
    requires IsValidEmail(NormaliseEmail(req.email))
    requires compare(req.password, hash(req.password))
    ensures Login(Signup(l, req, newId, hash).after, email, req.password, compare) == Signup(l, req, newId, hash).response
  {
    var s := Signup(l, req, newId, hash);
    var u := s.response.value;
    assert s.after.users == l.users + [u] && u.email == NormaliseEmail(email) && Saveable(l, u);
    FindAppended(l.users, u);
    assert u.email != [] by {
      NonEmptyWhenValid(u.email);
    }
  }

  lemma NonEmptyWhenValid(e: string)
    requires IsValidEmail(e)
    ensures e != []
  {
  }

  /** A user appended with a new email is the one found by that email. */
  lemma FindAppended(users: seq<User>, u: User)
    requires FindUserByEmail(users, u.email).None?
    ensures FindUserByEmail(users + [u], u.email) == Some(|users|)
  {
    assert (users + [u])[|users|] == u;
  }

  /** A complete request whose email is not stored and whose document can
      be saved is saved as given. */
  lemma SignupAccepts(l: Ledger, req: SignupRequest, newId: Id, hash: string -> string)
    requires req.name != [] && req.email != [] && req.password != []
    requires FindUserByEmail(l.users, NormaliseEmail(req.email)).None?
    requires Saveable(l, NewUser(req, newId, hash(req.password)))
    ensures var u := NewUser(req, newId, hash(req.password));
      Signup(l, req, newId, hash) == Step(l.(users := l.users + [u]), Ok(u))
  {
  }

  /** Signup checks the stored hash's length, not the password's: a
      request with a trimmed name of 2 to 80 characters, a normal email and
      a password shorter than isValidPassword allows is saved, with
      walletBalance 0 and isActive true, when neither the id nor the email
      is taken and the hash has the six characters the schema asks of the
      stored password (a bcrypt hash has 60). */
  lemma SignupSkipsPasswordRule(l: Ledger, name: string, email: string, password: string, newId: Id, hash: string -> string)
    requires Trimmed(name) && MinUserName <= Utf16Length(name) <= MaxUserName
    requires email != [] && NormalEmail(email)
    requires password != [] && !IsValidPassword(Some(password))
    requires Utf16Length(hash(password)) >= MinStoredPassword
    requires FindUser(l.users, newId).None? && FindUserByEmail(l.users, email).None?
    ensures var s := Signup(l, SignupRequest(name, email, password, None, None), newId, hash);
      && s.response.Ok? && s.response.value.walletBalance == 0 && s.response.value.isActive
  {
    var req := SignupRequest(name, email, password, None, None);
    var u := NewUser(req, newId, hash(password));
    NormaliseEmailFixes(email);
    assert Saveable(l, u) by {
      TrimIdentity(name);
      assert u == User(newId, name, email, hash(password), 0, true);
    }
    SignupAccepts(l, req, newId, hash);
  }
}
