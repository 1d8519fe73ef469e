/**
 * `AuthService`: registration and login over the `users` table, which it
 * shares with `UsersService`. bcrypt and the JWT signer are foreign code and
 * come in as function parameters: `hash(password, salt)`, `compare(password,
 * stored)` and `sign(payload)`; the salt, the new id and the clock are
 * parameters as well.
 */
module Auth {
  import opened Common
  import opened Users
  import opened PasswordRule

  /** The body of `POST /auth/register`. */
  datatype RegisterDto = RegisterDto(username: string, email: string, password: string)

  /** The body of `POST /auth/login`. */
  datatype LoginDto = LoginDto(email: string, password: string)

  /** `{ sub: user.id, email: user.email }`. */
  datatype TokenPayload = TokenPayload(sub: UserId, email: string)

  /** A user row without its `password` column, as both endpoints return it. */
  datatype PublicUser = PublicUser(
    id: UserId,
    username: string,
    email: string,
    coinBalance: int,
    isVerified: bool,
    role: string,
    coins: int,
    isPremium: bool,
    dailyCoinsEarned: int,
    dailyCoinsSent: int,
    lastDailyReset: Option<int>,
    lastLogin: Option<int>)

  datatype AuthResponse = AuthResponse(user: PublicUser, token: string)

  /** The validation pipe's checks on `RegisterDto` (the e-mail syntax check is not modelled). */
  function RegisterDtoValid(dto: RegisterDto): (b: bool)
    // every field is non-empty, and the password has the classes the error message names
    ensures b ==> dto.username != "" && dto.email != "" && dto.password != ""
    ensures b ==> HasRequiredClasses(dto.password)
  {
    && |dto.username| >= 3
    && dto.email != ""
    && |dto.password| >= 8
    && Matches(dto.password)
  }

  /** `const { password: _, ...result } = user`. */
  function WithoutPassword(u: User): (p: PublicUser)
    ensures p.id == u.id && p.username == u.username && p.email == u.email
    ensures p.coinBalance == u.coinBalance && p.coins == u.coins
    ensures p.lastLogin == u.lastLogin && p.lastDailyReset == u.lastDailyReset
  {
    PublicUser(u.id, u.username, u.email, u.coinBalance, u.isVerified, u.role, u.coins,
               u.isPremium, u.dailyCoinsEarned, u.dailyCoinsSent, u.lastDailyReset, u.lastLogin)
  }

  /** Two rows that differ only in their password look the same to a client. */
  lemma WithoutPasswordHidesPassword(u: User, pw: string)
    ensures WithoutPassword(u.(password := pw)) == WithoutPassword(u)
    ensures WithoutPassword(u) == WithoutPassword(u.(password := ""))
  {
  }

  /** `generateToken(user)`. */
  function GenerateToken(u: User, sign: TokenPayload -> string): (t: string)
    ensures t == sign(TokenPayload(u.id, u.email))
  {
    sign(TokenPayload(u.id, u.email))
  }

  /** Some stored user has this e-mail or this username: `findOne({ where: [{ email }, { username }] })` finds a row. */
  predicate Taken(users: map<UserId, User>, email: string, username: string) {
    exists k :: k in users && (users[k].email == email || users[k].username == username)
  }

  /** Some stored user has this e-mail and a password `compare` accepts. */
  predicate Authenticates(users: map<UserId, User>, email: string, password: string,
                          compare: (string, string) -> bool) {
    exists k :: k in users && users[k].email == email && compare(password, users[k].password)
  }

  /** Adding a row whose e-mail and username are both free keeps the table well-formed. */
  lemma AddFreshUserKeepsWellFormed(users: map<UserId, User>, u: User)
    requires WellFormed(users) && u.id !in users && !Taken(users, u.email, u.username)
    ensures WellFormed(users[u.id := u])
  {
  }

  /** Stamping `lastLogin` keeps the table well-formed. */
  lemma StampLoginKeepsWellFormed(users: map<UserId, User>, k: UserId, now: int)
    requires WellFormed(users) && k in users
    ensures WellFormed(users[k := users[k].(lastLogin := Some(now))])
  {
  }

  class AuthService {
    /** The users table, shared with `UsersService`. */
    const usersService: UsersService

    ghost predicate Valid()
      reads this, usersService
    {
      usersService.Valid()
    }

    constructor (users: UsersService)
      requires users.Valid()
      ensures Valid() && usersService == users
    {
      usersService := users;
    }

    /**
     * `register(dto)`. Which row the lookup returns when both an e-mail and a
     * username match (possibly on different rows) is up to the database, so
     * the contract pins the error only where it is determined.
     */
    method Register(dto: RegisterDto, salt: string, hash: (string, string) -> string,
                    sign: TokenPayload -> string, newId: UserId, now: int)
      returns (r: Result<AuthResponse, ApiError>)
      requires Valid() && RegisterDtoValid(dto)
      requires newId !in usersService.users
      modifies usersService
      ensures Valid()
      // a conflict exactly when the e-mail or the username is taken, and then nothing is added
      ensures r.Failure? <==> Taken(old(usersService.users), dto.email, dto.username)
      ensures r.Failure? ==>
                && usersService.users == old(usersService.users)
                && (r.error == Conflict(EmailInUse) || r.error == Conflict(UsernameInUse))
      // the e-mail conflict is reported whenever it is the only kind there is, and only when it exists
      ensures r == Failure(Conflict(EmailInUse)) ==>
                exists k :: k in old(usersService.users) && old(usersService.users)[k].email == dto.email
      ensures r == Failure(Conflict(UsernameInUse)) ==>
                exists k :: k in old(usersService.users)
                            && old(usersService.users)[k].username == dto.username
                            && old(usersService.users)[k].email != dto.email
      // on success exactly one row is added, holding the hashed password
      ensures r.Success? ==>
                var u := NewUser(newId, dto.username, dto.email, hash(dto.password, salt), now);
                && usersService.users == old(usersService.users)[newId := u]
                && r.value == AuthResponse(WithoutPassword(u), sign(TokenPayload(newId, dto.email)))
    {
      var users := usersService.users;
      if k :| k in users && (users[k].email == dto.email || users[k].username == dto.username) {
        if users[k].email == dto.email {
          return Failure(Conflict(EmailInUse));
        }
        return Failure(Conflict(UsernameInUse));
      }
      var hashed := hash(dto.password, salt);
      var user := NewUser(newId, dto.username, dto.email, hashed, now);
      AddFreshUserKeepsWellFormed(users, user);
      usersService.users := users[newId := user];
      r := Success(AuthResponse(WithoutPassword(user), GenerateToken(user, sign)));
    }

    /** `login(dto)`. */
    method Login(dto: LoginDto, compare: (string, string) -> bool, sign: TokenPayload -> string, now: int)
      returns (r: Result<AuthResponse, ApiError>)
      requires Valid()
      modifies usersService
      ensures Valid()
      // an unknown e-mail and a wrong password get the same answer, and change nothing
      ensures r.Failure? <==> !Authenticates(old(usersService.users), dto.email, dto.password, compare)
      ensures r.Failure? ==> r.error == Unauthorized && usersService.users == old(usersService.users)
      // on success only that user's lastLogin changes
      ensures r.Success? ==>
                exists k :: k in old(usersService.users)
                  && old(usersService.users)[k].email == dto.email
                  && compare(dto.password, old(usersService.users)[k].password)
                  && usersService.users
                     == old(usersService.users)[k := old(usersService.users)[k].(lastLogin := Some(now))]
                  && r.value == AuthResponse(WithoutPassword(usersService.users[k]),
                                             sign(TokenPayload(k, dto.email)))
    {
      var users := usersService.users;
      if k :| k in users && users[k].email == dto.email {
        assert forall j :: j in users && users[j].email == dto.email ==> j == k;
        if !compare(dto.password, users[k].password) {
          return Failure(Unauthorized);
        }
        var user := users[k].(lastLogin := Some(now));
        StampLoginKeepsWellFormed(users, k, now);
        usersService.users := users[k := user];
        r := Success(AuthResponse(WithoutPassword(user), GenerateToken(user, sign)));
      } else {
        r := Failure(Unauthorized);
      }
    }
  }
}
