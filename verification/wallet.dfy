/**
 * The wallet screen's transaction list: the all/received/sent tabs and the
 * incoming/outgoing marker of each row. Its rewards tab is the store in
 * `Rewards`, and its `formatDate` is `RelativeTime.FormatDate`. Amounts are
 * in hundredths.
 */
module Wallet {
  import opened Common

  datatype WalletTxType = LikeTx | CommentTx | PostReward | DirectTransfer | SystemTx

  datatype WalletTx = WalletTx(
    id: string,
    kind: WalletTxType,
    amount: int,
    senderId: string,
    receiverId: string)

  datatype TxFilter = AllTx | Received | Sent

  /** `t.receiver.id === user?.id`: never true when nobody is signed in. */
  function ReceivedBy(userId: Option<string>): WalletTx -> bool {
    (t: WalletTx) => userId == Some(t.receiverId)
  }

  /** `t.sender.id === user?.id`. */
  function SentBy(userId: Option<string>): WalletTx -> bool {
    (t: WalletTx) => userId == Some(t.senderId)
  }

  /** `getFilteredTransactions()`. */
  function FilteredTransactions(txs: seq<WalletTx>, f: TxFilter, userId: Option<string>): (r: seq<WalletTx>)
    ensures f == AllTx ==> r == txs
    ensures f == Received ==> forall t :: t in r <==> t in txs && userId == Some(t.receiverId)
    ensures f == Sent ==> forall t :: t in r <==> t in txs && userId == Some(t.senderId)
  {
    match f
    case AllTx => txs
    case Received => FilterMembers(ReceivedBy(userId), txs); Filter(ReceivedBy(userId), txs)
    case Sent => FilterMembers(SentBy(userId), txs); Filter(SentBy(userId), txs)
  }

  /** Every tab keeps the list's order: it commutes with splitting the list. */
  lemma FilteredTransactionsKeepOrder(a: seq<WalletTx>, b: seq<WalletTx>, f: TxFilter, userId: Option<string>)
    ensures FilteredTransactions(a + b, f, userId)
            == FilteredTransactions(a, f, userId) + FilteredTransactions(b, f, userId)
  {
    match f
    case AllTx =>
    case Received => FilterAppend(ReceivedBy(userId), a, b);
    case Sent => FilterAppend(SentBy(userId), a, b);
  }

  /** Signed out, the received and sent tabs are empty. */
  lemma SignedOutTabsEmpty(txs: seq<WalletTx>)
    ensures FilteredTransactions(txs, Received, None) == []
    ensures FilteredTransactions(txs, Sent, None) == []
  {
    FilterNone(ReceivedBy(None), txs);
    FilterNone(SentBy(None), txs);
  }

  /** `item.receiver.id === (user?.id || '101')`: the row's incoming marker. */
  function IsIncoming(t: WalletTx, userId: Option<string>): (b: bool)
    ensures Truthy(userId) ==> (b <==> userId == Some(t.receiverId))
    ensures !Truthy(userId) ==> (b <==> t.receiverId == "101")
  {
    t.receiverId == (if Truthy(userId) then userId.value else "101")
  }

  /**
   * For a signed-in user with a non-empty id, a row is marked incoming
   * exactly when the received tab lists it.
   */
  lemma IncomingMatchesReceivedTab(txs: seq<WalletTx>, userId: Option<string>, t: WalletTx)
    requires Truthy(userId) && t in txs
    ensures IsIncoming(t, userId) <==> t in FilteredTransactions(txs, Received, userId)
  {
  }

  /**
   * Signed out, the marker still treats user '101' as the viewer, although
   * the received tab is empty.
   */
  lemma SignedOutMarkerUsesPlaceholder(txs: seq<WalletTx>, t: WalletTx)
    requires t in txs && t.receiverId == "101"
    ensures IsIncoming(t, None)
    ensures t !in FilteredTransactions(txs, Received, None)
  {
    SignedOutTabsEmpty(txs);
  }

  /** A transfer between two different users is on at most one of the viewer's tabs. */
  lemma ReceivedAndSentDisjoint(txs: seq<WalletTx>, userId: Option<string>, t: WalletTx)
    requires t.senderId != t.receiverId
    ensures !(t in FilteredTransactions(txs, Received, userId) && t in FilteredTransactions(txs, Sent, userId))
  {
  }
}
