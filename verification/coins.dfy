/**
 * `CoinsService`: the coin ledger. It moves a balance between two users
 * through `UsersService.updateCoinBalance` and appends one row to the
 * `coin_transactions` table, kept here as a sequence in insertion order.
 */
module Coins {
  import opened Common
  import opened Users
  import opened Pagination

  /** The `type` column as the service fills it in. */
  datatype TxType = DirectTransfer | PostReward | CommentReward

  /** One row of `coin_transactions`. */
  datatype CoinTransaction = CoinTransaction(
    id: string,
    amount: int,
    txType: TxType,
    description: Option<string>,
    postId: Option<string>,
    commentId: Option<string>,
    senderId: UserId,
    receiverId: UserId,
    createdAt: int)

  /** The body of `POST /coins/transfer` (`CreateTransactionDto`). */
  datatype TransferRequest = TransferRequest(
    receiverId: UserId,
    amount: int,
    description: Option<string>,
    postId: Option<string>,
    commentId: Option<string>)

  /** `@Min(0.01)` on the amount, in hundredths. */
  const MinTransferAmount: int := 1

  /** `postId ? 'post_reward' : commentId ? 'comment_reward' : 'direct_transfer'`. */
  function TxTypeOf(postId: Option<string>, commentId: Option<string>): (t: TxType)
    ensures t == PostReward <==> Truthy(postId)
    ensures t == CommentReward <==> !Truthy(postId) && Truthy(commentId)
    ensures t == DirectTransfer <==> !Truthy(postId) && !Truthy(commentId)
  {
    if Truthy(postId) then PostReward
    else if Truthy(commentId) then CommentReward
    else DirectTransfer
  }

  /** The user is the sender or the receiver of the transaction. */
  predicate Involves(t: CoinTransaction, userId: UserId) {
    t.senderId == userId || t.receiverId == userId
  }

  function InvolvesUser(userId: UserId): (r: CoinTransaction -> bool)
    // the predicate the user's own rows are picked by
    ensures forall t {:trigger Involves(t, userId)} :: r(t) <==> Involves(t, userId)
  {
    (t: CoinTransaction) => Involves(t, userId)
  }

  /** The `createdAt` stamp the log is ordered by. */
  function TxTime(t: CoinTransaction): int { t.createdAt }

  predicate UniqueIds(log: seq<CoinTransaction>) {
    forall i, j :: 0 <= i < j < |log| ==> log[i].id != log[j].id
  }

  /** Logging a row with an id not yet in the log keeps the ids unique. */
  lemma AppendKeepsUniqueIds(log: seq<CoinTransaction>, t: CoinTransaction)
    requires UniqueIds(log)
    requires forall i :: 0 <= i < |log| ==> log[i].id != t.id
    ensures UniqueIds(log + [t])
  {
    var after := log + [t];
    forall i, j | 0 <= i < j < |after|
      ensures after[i].id != after[j].id
    {
      assert after[i] == log[i];
    }
  }

  /** `findOne({ where: { id } })` on the transaction table. */
  function FindTransaction(log: seq<CoinTransaction>, id: string): (r: Option<CoinTransaction>)
    ensures r.None? <==> forall i :: 0 <= i < |log| ==> log[i].id != id
    ensures r.Some? ==> r.value in log && r.value.id == id
  {
    FindFirst((t: CoinTransaction) => t.id == id, log)
  }

  /** The result of `getUserTransactions`. */
  datatype TransactionPage = TransactionPage(
    transactions: seq<CoinTransaction>, total: nat, page: int, limit: int)

  class CoinsService {
    const usersService: UsersService
    var transactions: seq<CoinTransaction>

    ghost predicate Valid()
      reads this, usersService
    {
      usersService.Valid() && UniqueIds(transactions) && Ascending(transactions, TxTime)
    }

    constructor (users: UsersService)
      requires users.Valid()
      ensures Valid() && usersService == users && transactions == []
    {
      usersService := users;
      transactions := [];
    }

    /**
     * `transfer(dto, senderId)`. `newId` and `now` are the id and `createdAt`
     * the database assigns to the new row.
     */
    method Transfer(req: TransferRequest, senderId: UserId, newId: string, now: int)
      returns (r: Result<CoinTransaction, ApiError>)
      requires Valid()
      requires req.amount >= MinTransferAmount
      requires forall i :: 0 <= i < |transactions| ==> transactions[i].id != newId
      // the clock does not run back
      requires forall i :: 0 <= i < |transactions| ==> transactions[i].createdAt <= now
      modifies this, usersService
      ensures Valid()
      // the checks, in the order the service makes them
      ensures senderId == req.receiverId ==> r == Failure(BadRequest(TransferToSelf))
      ensures senderId != req.receiverId && senderId !in old(usersService.users) ==>
                r == Failure(NotFound(UserRow, senderId))
      ensures senderId != req.receiverId && senderId in old(usersService.users)
              && req.receiverId !in old(usersService.users) ==>
                r == Failure(NotFound(UserRow, req.receiverId))
      ensures senderId != req.receiverId && senderId in old(usersService.users)
              && req.receiverId in old(usersService.users)
              && old(usersService.users)[senderId].coinBalance < req.amount ==>
                r == Failure(BadRequest(InsufficientBalance))
      // a failure changes nothing
      ensures r.Failure? ==>
                usersService.users == old(usersService.users) && transactions == old(transactions)
      // on success: both balances move by the amount, one row is logged, nothing else changes
      ensures r.Success? ==>
                && senderId in old(usersService.users) && req.receiverId in old(usersService.users)
                && usersService.users
                   == Move(old(usersService.users), senderId, req.receiverId, req.amount)
                && transactions == old(transactions) + [r.value]
                && r.value == CoinTransaction(newId, req.amount, TxTypeOf(req.postId, req.commentId),
                                              req.description, req.postId, req.commentId,
                                              senderId, req.receiverId, now)
      ensures r.Success? ==>
                && usersService.users[senderId].coinBalance
                   == old(usersService.users)[senderId].coinBalance - req.amount
                && usersService.users[req.receiverId].coinBalance
                   == old(usersService.users)[req.receiverId].coinBalance + req.amount
                && usersService.users[senderId].coinBalance >= 0
                && TotalBalance(usersService.users) == TotalBalance(old(usersService.users))
      // no balance goes negative
      ensures NonNegative(old(usersService.users)) ==> NonNegative(usersService.users)
    {
      if senderId == req.receiverId {
        return Failure(BadRequest(TransferToSelf));
      }
      var sender := usersService.FindOne(senderId);
      if sender.Failure? {
        return Failure(sender.error);
      }
      var receiver := usersService.FindOne(req.receiverId);
      if receiver.Failure? {
        return Failure(receiver.error);
      }
      if sender.value.coinBalance < req.amount {
        return Failure(BadRequest(InsufficientBalance));
      }
      usersService.MoveBalance(senderId, req.receiverId, req.amount);

      var tx := CoinTransaction(newId, req.amount, TxTypeOf(req.postId, req.commentId),
                                req.description, req.postId, req.commentId,
                                senderId, req.receiverId, now);
      AppendKeepsUniqueIds(transactions, tx);
      AppendKeepsAscending(transactions, TxTime, tx);
      transactions := transactions + [tx];
      r := Success(tx);
    }

    /** `getBalance(userId)`. */
    function GetBalance(userId: UserId): (r: Result<int, ApiError>)
      reads this, usersService
      requires Valid()
      ensures r.Failure? <==> userId !in usersService.users
      ensures r.Failure? ==> r.error == NotFound(UserRow, userId)
      ensures r.Success? ==> r.value == usersService.users[userId].coinBalance
    {
      match usersService.FindOne(userId)
      case Success(user) => Success(user.coinBalance)
      case Failure(e) => Failure(e)
    }

    /** `getUserTransactions(userId, page, limit)`: the page of the stored log `UserTransactionsPage` describes. */
    function GetUserTransactions(userId: UserId, page: int, limit: int): (r: TransactionPage)
      reads this, usersService
      requires Valid() && page >= 1 && limit >= 1
      ensures r == UserTransactionsPage(transactions, userId, page, limit)
      ensures forall t :: t in r.transactions ==> t in transactions && Involves(t, userId)
    {
      UserTransactionsPage(transactions, userId, page, limit)
    }

    /** `getTransaction(id, userId)`. */
    function GetTransaction(id: string, userId: UserId): (r: Result<CoinTransaction, ApiError>)
      reads this
      ensures r == Failure(NotFound(TransactionRow, id)) <==>
                forall i :: 0 <= i < |transactions| ==> transactions[i].id != id
      ensures r.Failure? ==> r.error == NotFound(TransactionRow, id) || r.error == Forbidden
      ensures r == Failure(Forbidden) ==>
                exists i :: 0 <= i < |transactions| && transactions[i].id == id
                            && !Involves(transactions[i], userId)
      ensures r.Success? ==>
                r.value in transactions && r.value.id == id && Involves(r.value, userId)
    {
      match FindTransaction(transactions, id)
      case None => Failure(NotFound(TransactionRow, id))
      case Some(t) => if Involves(t, userId) then Success(t) else Failure(Forbidden)
    }
  }

  /** The user's rows are rows of the log the user sent or received. */
  lemma InvolvedRows(log: seq<CoinTransaction>, userId: UserId)
    ensures forall t :: t in Filter(InvolvesUser(userId), log) ==> t in log && Involves(t, userId)
  {
    FilterMembers(InvolvesUser(userId), log);
  }

  /**
   * The page `getUserTransactions` returns: the rows the user sent or received,
   * newest first, `skip`/`take` applied, and their total.
   */
  function UserTransactionsPage(log: seq<CoinTransaction>, userId: UserId, page: int, limit: int)
    : (r: TransactionPage)
    requires page >= 1 && limit >= 1 && Ascending(log, TxTime)
    ensures r.total == |Filter(InvolvesUser(userId), log)|
    ensures |r.transactions| == Max(0, Min(limit, r.total - Skip(page, limit)))
    ensures forall i :: 0 <= i < |r.transactions| ==>
              r.transactions[i] == Filter(InvolvesUser(userId), log)[r.total - 1 - (Skip(page, limit) + i)]
    ensures r.page == page && r.limit == limit
    ensures forall t :: t in r.transactions ==> t in log && Involves(t, userId)
    // newest first: earlier pages hold no older row than this one, later pages no newer
    ensures NewestFirstByKey(r.transactions, Filter(InvolvesUser(userId), log), TxTime, Skip(page, limit))
  {
    var mine := Filter(InvolvesUser(userId), log);
    InvolvedRows(log, userId);
    FilterKeepsAscending(InvolvesUser(userId), log, TxTime);
    NewestFirstPageByKey(mine, TxTime, page, limit);
    NewestFirstPageRows(mine, page, limit);
    TransactionPage(NewestFirstPage(mine, page, limit), |mine|, page, limit)
  }

  /**
   * With unique ids the lookup is decided by the row with that id: a party to it
   * gets exactly that row, anybody else is refused.
   */
  lemma GetTransactionDecided(svc: CoinsService, k: nat, userId: UserId)
    requires UniqueIds(svc.transactions) && k < |svc.transactions|
    ensures var t := svc.transactions[k];
            svc.GetTransaction(t.id, userId)
            == if Involves(t, userId) then Success(t) else Failure(Forbidden)
  {
    FindTransactionUnique(svc.transactions, k);
  }

  lemma FindTransactionUnique(log: seq<CoinTransaction>, k: nat)
    requires UniqueIds(log) && k < |log|
    ensures FindTransaction(log, log[k].id) == Some(log[k])
  {
    var r := FindTransaction(log, log[k].id);
    var j :| 0 <= j < |log| && r.value == log[j] && log[j].id == log[k].id;
    assert j == k;
  }
}
