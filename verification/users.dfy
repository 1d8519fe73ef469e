/**
 * The `users` table and `UsersService` of the backend. The repository is an
 * in-memory map from user id to the stored row; the service fetches a row,
 * changes it and saves it back, which here is one map update.
 * Coin quantities are integer hundredths of a coin.
 */
module Users {
  import opened Common

  type UserId = string

  /** One row of the `users` table (profile text fields and timestamps it never reads are left out). */
  datatype User = User(
    id: UserId,
    username: string,
    email: string,
    password: string,
    coinBalance: int,
    isVerified: bool,
    role: string,
    coins: int,
    isPremium: bool,
    dailyCoinsEarned: int,
    dailyCoinsSent: int,
    lastDailyReset: Option<int>,
    lastLogin: Option<int>)

  /** `@Column({ default: 1.0 }) coins`: every user starts with one coin. */
  const StartingCoins: int := 100

  /** A row as the ORM creates it from the given columns and the column defaults. */
  function NewUser(id: UserId, username: string, email: string, password: string, now: int): (u: User)
    ensures u.id == id && u.username == username && u.email == email && u.password == password
    ensures u.coinBalance == 0 && u.coins == StartingCoins
    ensures u.dailyCoinsEarned == 0 && u.dailyCoinsSent == 0
    ensures !u.isVerified && !u.isPremium && u.role == "user"
    ensures u.lastDailyReset == Some(now) && u.lastLogin == None
  {
    User(id, username, email, password, 0, false, "user", StartingCoins, false, 0, 0, Some(now), None)
  }

  /** The daily counters after a balance change of `amount`. */
  function BumpDailyCounters(u: User, amount: int): (r: User)
    // the counters only grow
    ensures r.dailyCoinsEarned >= u.dailyCoinsEarned && r.dailyCoinsSent >= u.dailyCoinsSent
    // what they grow by adds up to the change
    ensures (r.dailyCoinsEarned - u.dailyCoinsEarned) - (r.dailyCoinsSent - u.dailyCoinsSent) == amount
    // an increase is "earned", a decrease is "sent", nothing is both
    ensures amount >= 0 ==> r.dailyCoinsSent == u.dailyCoinsSent
    ensures amount <= 0 ==> r.dailyCoinsEarned == u.dailyCoinsEarned
    ensures r == u.(dailyCoinsEarned := r.dailyCoinsEarned, dailyCoinsSent := r.dailyCoinsSent)
  {
    if amount > 0 then u.(dailyCoinsEarned := u.dailyCoinsEarned + amount)
    else if amount < 0 then u.(dailyCoinsSent := u.dailyCoinsSent + -amount)
    else u
  }

  /** The row after `updateCoinBalance(id, amount)`. */
  function CreditBalance(u: User, amount: int): (r: User)
    ensures r.coinBalance - u.coinBalance == amount
    ensures r.coins == u.coins
    ensures r == BumpDailyCounters(u, amount).(coinBalance := r.coinBalance)
  {
    BumpDailyCounters(u.(coinBalance := u.coinBalance + amount), amount)
  }

  /** The row after `updateCoins(id, amount)`: the same rule on the separate `coins` column. */
  function CreditCoins(u: User, amount: int): (r: User)
    ensures r.coins - u.coins == amount
    ensures r.coinBalance == u.coinBalance
    ensures r == BumpDailyCounters(u, amount).(coins := r.coins)
  {
    BumpDailyCounters(u.(coins := u.coins + amount), amount)
  }

  /** The row after `resetDailyCounters(id)` at time `now`. */
  function ResetCounters(u: User, now: int): (r: User)
    ensures r.dailyCoinsEarned == 0 && r.dailyCoinsSent == 0
    ensures r.coinBalance == u.coinBalance && r.coins == u.coins
    ensures r.lastDailyReset == Some(now)
    ensures r.(dailyCoinsEarned := u.dailyCoinsEarned, dailyCoinsSent := u.dailyCoinsSent,
               lastDailyReset := u.lastDailyReset) == u
  {
    u.(dailyCoinsEarned := 0, dailyCoinsSent := 0, lastDailyReset := Some(now))
  }

  /** Two balance updates add up: the balance after both is the balance after their sum. */
  lemma CreditBalanceTwice(u: User, a: int, b: int)
    ensures CreditBalance(CreditBalance(u, a), b).coinBalance == CreditBalance(u, a + b).coinBalance
    ensures CreditBalance(CreditBalance(u, a), -a).coinBalance == u.coinBalance
  {
  }

  // ---------------------------------------------------------------------
  // Table-wide properties
  // ---------------------------------------------------------------------

  /** The id column is the key, and `@Column({ unique: true })` holds for username and email. */
  ghost predicate WellFormed(users: map<UserId, User>) {
    && (forall id :: id in users ==> users[id].id == id)
    && (forall a, b :: a in users && b in users && a != b ==>
          users[a].email != users[b].email && users[a].username != users[b].username)
  }

  /** Every stored `coinBalance` is at least zero. */
  ghost predicate NonNegative(users: map<UserId, User>) {
    forall id :: id in users ==> users[id].coinBalance >= 0
  }

  /** The sum of every stored `coinBalance`: the coins in circulation. */
  ghost function TotalBalance(users: map<UserId, User>): int
    decreases |users|
  {
    if users == map[] then 0
    else
      var k :| k in users;
      users[k].coinBalance + TotalBalance(users - {k})
  }

  /** Any row can be taken out of the total first. */
  lemma {:induction false} TotalBalanceRemove(users: map<UserId, User>, k: UserId)
    requires k in users
    ensures TotalBalance(users) == users[k].coinBalance + TotalBalance(users - {k})
    decreases |users|
  {
    var j :| j in users && TotalBalance(users) == users[j].coinBalance + TotalBalance(users - {j});
    if j != k {
      assert users - {j} - {k} == users - {k} - {j};
      assert |users - {j}| < |users|;
      TotalBalanceRemove(users - {j}, k);
      assert |users - {k}| < |users|;
      TotalBalanceRemove(users - {k}, j);
    }
  }

  /** Replacing one row changes the total by exactly that row's balance change. */
  lemma TotalBalanceUpdate(users: map<UserId, User>, k: UserId, v: User)
    requires k in users
    ensures TotalBalance(users[k := v]) == TotalBalance(users) - users[k].coinBalance + v.coinBalance
  {
    TotalBalanceRemove(users, k);
    TotalBalanceRemove(users[k := v], k);
    assert users[k := v] - {k} == users - {k};
  }

  /**
   * Moving `amount` from one existing row to another, as `transfer` and
   * `sendCoins` do with two `updateCoinBalance` calls: the debit first, then
   * the credit.
   */
  function Move(users: map<UserId, User>, from: UserId, to: UserId, amount: int): (after: map<UserId, User>)
    requires from in users && to in users && from != to
    ensures after.Keys == users.Keys
    ensures after[from].coinBalance == users[from].coinBalance - amount
    ensures after[to].coinBalance == users[to].coinBalance + amount
    ensures forall k :: k in users && k != from && k != to ==> after[k] == users[k]
  {
    var debited := users[from := CreditBalance(users[from], -amount)];
    debited[to := CreditBalance(debited[to], amount)]
  }

  /** A move leaves the coins in circulation unchanged. */
  lemma MoveConservesTotal(users: map<UserId, User>, from: UserId, to: UserId, amount: int)
    requires from in users && to in users && from != to
    ensures TotalBalance(Move(users, from, to, amount)) == TotalBalance(users)
  {
    var debited := users[from := CreditBalance(users[from], -amount)];
    TotalBalanceUpdate(users, from, CreditBalance(users[from], -amount));
    TotalBalanceUpdate(debited, to, CreditBalance(debited[to], amount));
  }

  /**
   * A move keeps every balance at or above zero when the sender holds at least
   * the amount and the amount is not negative.
   */
  lemma MovePreservesNonNegative(users: map<UserId, User>, from: UserId, to: UserId, amount: int)
    requires from in users && to in users && from != to
    requires NonNegative(users) && amount >= 0 && users[from].coinBalance >= amount
    ensures NonNegative(Move(users, from, to, amount))
  {
  }

  // ---------------------------------------------------------------------
  // The service
  // ---------------------------------------------------------------------

  class UsersService {
    var users: map<UserId, User>

    ghost predicate Valid()
      reads this
    {
      WellFormed(users)
    }

    constructor (initial: map<UserId, User>)
      requires WellFormed(initial)
      ensures Valid() && users == initial
    {
      users := initial;
    }

    /** `findOne(id)`: the row with that id, or NotFound. */
    function FindOne(id: UserId): (r: Result<User, ApiError>)
      reads this
      requires Valid()
      ensures r.Success? <==> id in users
      ensures r.Success? ==> r.value == users[id] && r.value.id == id
      ensures r.Failure? ==> r.error == NotFound(UserRow, id)
    {
      if id in users then Success(users[id]) else Failure(NotFound(UserRow, id))
    }

    /** `updateCoinBalance(userId, amount)`. */
    method UpdateCoinBalance(id: UserId, amount: int) returns (r: Result<User, ApiError>)
      requires Valid()
      modifies this
      ensures Valid()
      ensures id !in old(users) ==> r == Failure(NotFound(UserRow, id)) && users == old(users)
      ensures id in old(users) ==>
                && users == old(users)[id := CreditBalance(old(users)[id], amount)]
                && r == Success(users[id])
    {
      var found := FindOne(id);
      if found.Failure? {
        return Failure(found.error);
      }
      var user := CreditBalance(found.value, amount);
      users := users[id := user];
      r := Success(user);
    }

    /**
     * The balance half shared by `transfer` and `sendCoins`: `updateCoinBalance`
     * with `-amount` on the sender, then with `amount` on the receiver.
     */
    method MoveBalance(from: UserId, to: UserId, amount: int)
      requires Valid() && from in users && to in users && from != to
      modifies this
      ensures Valid()
      ensures users == Move(old(users), from, to, amount)
      ensures TotalBalance(users) == TotalBalance(old(users))
      ensures NonNegative(old(users)) && 0 <= amount <= old(users)[from].coinBalance ==> NonNegative(users)
    {
      ghost var before := users;
      var _ := UpdateCoinBalance(from, -amount);
      ghost var debited := before[from := CreditBalance(before[from], -amount)];
      assert users == debited;
      assert to in users;
      var _ := UpdateCoinBalance(to, amount);
      assert users == debited[to := CreditBalance(debited[to], amount)];
      assert users == Move(before, from, to, amount);
      MoveConservesTotal(before, from, to, amount);
      if NonNegative(before) && 0 <= amount <= before[from].coinBalance {
        MovePreservesNonNegative(before, from, to, amount);
      }
    }

    /** `updateCoins(userId, amount)`. */
    method UpdateCoins(id: UserId, amount: int) returns (r: Result<User, ApiError>)
      requires Valid()
      modifies this
      ensures Valid()
      ensures id !in old(users) ==> r == Failure(NotFound(UserRow, id)) && users == old(users)
      ensures id in old(users) ==>
                && users == old(users)[id := CreditCoins(old(users)[id], amount)]
                && r == Success(users[id])
    {
      var found := FindOne(id);
      if found.Failure? {
        return Failure(found.error);
      }
      var user := CreditCoins(found.value, amount);
      users := users[id := user];
      r := Success(user);
    }

    /** `resetDailyCounters(userId)` at time `now`. */
    method ResetDailyCounters(id: UserId, now: int) returns (r: Result<User, ApiError>)
      requires Valid()
      modifies this
      ensures Valid()
      ensures id !in old(users) ==> r == Failure(NotFound(UserRow, id)) && users == old(users)
      ensures id in old(users) ==>
                && users == old(users)[id := ResetCounters(old(users)[id], now)]
                && r == Success(users[id])
    {
      var found := FindOne(id);
      if found.Failure? {
        return Failure(found.error);
      }
      var user := ResetCounters(found.value, now);
      users := users[id := user];
      r := Success(user);
    }
  }
}
