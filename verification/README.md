# SocialCoin core, modelled in Dafny

SocialCoin is a small social network with its own coin.

- **Backend.** A NestJS backend keeps users, posts, comments and a coin ledger. Users tip posts and transfer coins to each other.
- **Mobile app.** A React Native app shows the feed, the wallet, the reward store, the search screen and the notifications. It also has a send-money form and a sign-up form.

This project models the parts of both that carry the logic:

- **The four backend services.**
  - `UsersService` changes the balance and the daily counters of one user row.
  - `CoinsService` moves coins between users and keeps the transaction log.
  - `PostsService` handles posts, comments, likes and tips.
  - `AuthService` handles registration and login.

  Each service is a class over tables kept as Dafny maps and sequences. All of them share one `UsersService`, the way they share the `users` table.

- **The logic of the mobile screens.** This covers:
  - the notification list of `NotificationContext`;
  - the send-money amount sanitiser and its guards;
  - the sign-up checks and the password pattern the server also uses;
  - the search over the three catalogs and the recent-search list;
  - the wallet and reward tabs;
  - the feed's like, comment and hide-comments actions;
  - `formatDate`, which the home, wallet and notifications screens each define with the same body.

  Every screen handler becomes a function from the old state to the new state.

Some conventions hold across the model:

- **Amounts are hundredths of a coin.** Both the backend and the app work on JavaScript numbers; here those become `int` hundredths. `parseFloat` results are kept exactly as mantissa / 10^scale, with NaN as a value of its own.
- **Foreign code and outside values become parameters:**
  - bcrypt's `hash` and `compare`;
  - the JWT signer;
  - the salt;
  - the ids and timestamps the database or the clock assigns;
  - the dummy catalogs of the search screen.
- **Bodies declared as DTO classes arrive validated.** The global `ValidationPipe` (backend/src/main.ts:12-16) checks them before a service sees them. So `Transfer` requires the DTO's `@Min(0.01)`, and `Register` requires the `RegisterDto` rules. The pipe skips bodies typed as plain object types: the comment body (backend/src/posts/posts.controller.ts:89) and the tip body (backend/src/posts/posts.controller.ts:108) reach the service unchecked. The model gives them their declared types; see "Left out".
- **Tables are in time order.** Every table is kept in insertion order. The clock that stamps `createdAt` is taken not to run back, so insertion order is `createdAt` order, and the services keep that as part of their invariant.

Modules, one per file:

- `Common`: options, results, filters and string helpers.
- `Users`, `Coins`, `Posts`, `Auth` and `Pagination`: the backend.
- `NotificationContext`, `NotificationsScreen`, `RelativeTime`, `SendMoney`, `PasswordRule`, `RegisterScreen`, `Search`, `Wallet`, `Rewards` and `HomeScreen`: the app.

## Model

| member | source | states |
|---|---|---|
| Users.NewUser | backend/src/auth/auth.service.ts:38-43 | a new row has the given name, e-mail and password hash, balance 0, one coin, role "user", zero daily counters, its daily reset stamped now and no login yet |
| Users.BumpDailyCounters | backend/src/users/users.service.ts:56-62 | the daily counters never decrease; what "earned" gains minus what "sent" gains is exactly the change; a rise is only earned, a fall only sent; no other column changes |
| Users.CreditBalance | backend/src/users/users.service.ts:52-65 | the balance moves by exactly the amount, the separate `coins` column is untouched, and the counters are bumped as above |
| Users.CreditCoins | backend/src/users/users.service.ts:37-50 | the `coins` column moves by exactly the amount, the balance is untouched, and the counters are bumped as above |
| Users.ResetCounters | backend/src/users/users.service.ts:67-75 | both daily counters become 0 and the reset time becomes now; every other column is kept |
| Users.CreditBalanceTwice | backend/src/users/users.service.ts:52-65 | two balance updates add up to one update by their sum; a debit followed by the same credit restores the balance |
| Users.Move | backend/src/coins/coins.service.ts:31-32 | the debit and then the credit keep the same users, lower the sender's balance by the amount, raise the receiver's by the amount, and leave every other row as it was |
| Users.MoveConservesTotal | backend/src/coins/coins.service.ts:31-32 | moving coins between two users leaves the sum of all balances unchanged |
| Users.MovePreservesNonNegative | backend/src/coins/coins.service.ts:26-32 | once the balance check has passed, a move of a non-negative amount leaves no balance below zero |
| Users.UsersService.constructor | backend/src/users/users.service.ts:8-11 | the service starts over a well-formed table |
| Users.UsersService.FindOne | backend/src/users/users.service.ts:17-25 | the row with that id when it exists, otherwise NotFound for that id |
| Users.UsersService.UpdateCoinBalance | backend/src/users/users.service.ts:52-65 | an unknown id gives NotFound and changes nothing; otherwise only that row changes, to its credited form, which is returned; the table stays well-formed |
| Users.UsersService.MoveBalance | backend/src/coins/coins.service.ts:31-32 | two `updateCoinBalance` calls yield exactly `Move`; the total is conserved; no balance goes negative when the sender held the amount |
| Users.UsersService.UpdateCoins | backend/src/users/users.service.ts:37-50 | an unknown id gives NotFound and changes nothing; otherwise only that row's `coins` and counters change |
| Users.UsersService.ResetDailyCounters | backend/src/users/users.service.ts:67-75 | an unknown id gives NotFound and changes nothing; otherwise only that row's counters and reset time change |
| Auth.WithoutPassword | backend/src/auth/auth.service.ts:50-51 | the public view keeps the id, the name, the e-mail, the balances and the timestamps of the row |
| Auth.WithoutPasswordHidesPassword | backend/src/auth/auth.service.ts:50-55 | two rows that differ only in their password give identical responses |
| Auth.GenerateToken | backend/src/auth/auth.service.ts:88-95 | the token is the signer applied to the payload of the user's id and e-mail |
| Auth.AddFreshUserKeepsWellFormed | backend/src/auth/auth.service.ts:22-45 | adding a row whose e-mail and username are both free keeps ids as keys and e-mails and usernames unique |
| Auth.StampLoginKeepsWellFormed | backend/src/auth/auth.service.ts:72-74 | stamping the login time keeps the table well-formed |
| Auth.AuthService.constructor | backend/src/auth/auth.service.ts:12-16 | the service works over the shared users table |
| Auth.AuthService.Register | backend/src/auth/auth.service.ts:18-57 | a conflict exactly when the e-mail or the username is taken, and then nothing is added; "e-mail in use" only when the e-mail exists; "username in use" only when a row with that username has another e-mail; on success exactly one row with the hashed password is added, and the password-free row and its token are returned |
| Auth.AuthService.Login | backend/src/auth/auth.service.ts:59-86 | Unauthorized, with nothing changed, exactly when no stored user has that e-mail and an accepted password; on success only that user's last-login time changes, and its password-free row and token are returned |
| Coins.InvolvesUser | backend/src/coins/coins.service.ts:61-64 | the row filter picks exactly the rows the user sent or received |
| Coins.InvolvedRows | backend/src/coins/coins.service.ts:60-64 | every row the filter keeps is a logged row the user sent or received |
| Coins.UserTransactionsPage | backend/src/coins/coins.service.ts:55-77 | over a log in time order: the total is the number of rows the user sent or received; the page holds the right rows of those, with skip (page-1)*limit and at most limit rows; every row listed involves the user; the page runs from newest to oldest `createdAt`, earlier pages hold no older row and later pages no newer |
| Coins.TxTypeOf | backend/src/coins/coins.service.ts:44 | post reward exactly when a post id is given; comment reward exactly when only a comment id is; direct transfer exactly when neither is |
| Coins.AppendKeepsUniqueIds | backend/src/coins/coins.service.ts:35-47 | logging a row with a fresh id keeps the ledger's ids unique |
| Coins.FindTransaction | backend/src/coins/coins.service.ts:80-83 | none exactly when no logged row has the id; otherwise a logged row with that id |
| Coins.FindTransactionUnique | backend/src/coins/coins.service.ts:80-83 | with unique ids, looking up a row's id returns that row |
| Coins.CoinsService.constructor | backend/src/coins/coins.service.ts:10-14 | the ledger starts empty over the shared users table |
| Coins.CoinsService.Transfer | backend/src/coins/coins.service.ts:16-48 | checks in the source's order: self-transfer, unknown sender, unknown receiver, insufficient balance; a failure changes nothing; a success moves the amount (`Move`), appends exactly the row it returns (type per `TxTypeOf`), conserves the total, and never lets a balance go negative |
| Coins.CoinsService.GetBalance | backend/src/coins/coins.service.ts:50-53 | the user's stored balance, or NotFound exactly when the user does not exist |
| Coins.CoinsService.GetUserTransactions | backend/src/coins/coins.service.ts:55-77 | the page `UserTransactionsPage` gives for the stored log, which the service keeps in time order; every row listed is a logged row involving the user |
| Coins.CoinsService.GetTransaction | backend/src/coins/coins.service.ts:79-95 | NotFound exactly when no row has the id; Forbidden only when the row found does not involve the user; a success is a logged row with that id involving the user |
| Coins.GetTransactionDecided | backend/src/coins/coins.service.ts:79-95 | with unique ids, a party to a row gets exactly that row and anybody else is refused |
| Pagination.PageOf | backend/src/posts/posts.service.ts:37-38 | the page has min(limit, rows left after skip) rows, and row i is the row at skip + i |
| Pagination.PageCovers | backend/src/posts/posts.service.ts:37-38 | every row appears on page k / limit + 1, at position k mod limit |
| Pagination.NewestFirst | backend/src/posts/posts.service.ts:39 | row i is the i-th most recently inserted row |
| Pagination.NewestFirstPage | backend/src/posts/posts.service.ts:35-40 | at most limit rows, each the right row of the newest-first order |
| Pagination.AppendKeepsAscending | backend/src/coins/coins.service.ts:35-47 | a row stamped no earlier than every stored row keeps the table in time order |
| Pagination.FilterKeepsAscending | backend/src/posts/posts.service.ts:116 | the rows a `where` clause keeps are still in time order |
| Pagination.NewestFirstPageByKey | backend/src/posts/posts.service.ts:35-40 | over a table in time order, each page runs from the newest row to the oldest; the rows of earlier pages are no older and those of later pages no newer |
| Pagination.NewestFirstPageRows | backend/src/posts/posts.service.ts:35-40 | a page holds only rows of the table |
| Posts.NewPost | backend/src/posts/posts.service.ts:25-31 | the new post carries the DTO's content and media, premium exactly when the DTO says true, the author, zero likes and coins, and is not visible |
| Posts.ApplyUpdate | backend/src/posts/posts.service.ts:70 | each field present in the DTO overwrites the post's; absent fields, the id, the author and the counters are kept |
| Posts.FindPost | backend/src/posts/posts.service.ts:51-54 | a post is found exactly when one has the id, and it is a stored post with that id |
| Posts.FindPostUnique | backend/src/posts/posts.service.ts:51-54 | with unique ids, the lookup returns exactly the post with that id |
| Posts.Replace | backend/src/posts/posts.service.ts:92 | saving a changed row replaces the row with that id and keeps every other row in place |
| Posts.ReplaceKeepsUnique | backend/src/posts/posts.service.ts:70 | replacing a row by one with the same id keeps ids unique |
| Posts.FindAfterReplace | backend/src/posts/posts.service.ts:70-72 | the re-read after an update finds the new row |
| Posts.ReplaceKeepsTimeOrder | backend/src/posts/posts.service.ts:70 | saving a changed row that keeps its `createdAt` keeps the table in time order |
| Posts.CommentsPageOf | backend/src/posts/posts.service.ts:112-129 | over comments in time order: the total is the post's comment count; the page is the right slice of that post's comments, with at most limit rows; every comment listed belongs to the post; the page runs from newest to oldest, earlier pages hold no older comment and later pages no newer |
| Posts.Delete | backend/src/posts/posts.service.ts:82 | the remaining posts are exactly those with another id |
| Posts.DeleteRemovesOne | backend/src/posts/posts.service.ts:82 | with unique ids, deleting a stored post removes exactly its row and keeps the others in order |
| Posts.DeleteKeepsUnique | backend/src/posts/posts.service.ts:82 | deleting keeps ids unique |
| Posts.AppendKeepsUnique | backend/src/posts/posts.service.ts:31 | saving a post with a fresh id keeps ids unique |
| Posts.TipCheck | backend/src/posts/posts.service.ts:132-146 | a tip is accepted exactly when the amount is positive, the post, the sender and the author exist, the sender is not the author, and the sender holds the amount; the accepted post is the one found |
| Posts.TipCheckOrder | backend/src/posts/posts.service.ts:132-146 | the error reported is that of the first failing check, in the source's order |
| Posts.Liked | backend/src/posts/posts.service.ts:91 | one more like, nothing else changed |
| Posts.Tipped | backend/src/posts/posts.service.ts:153 | `coinsReceived` grows by the amount, nothing else changed |
| Posts.PostsService.constructor | backend/src/posts/posts.service.ts:12-20 | the post and comment tables start empty over the shared users table |
| Posts.PostsService.FindOne | backend/src/posts/posts.service.ts:50-61 | a stored post with the id, or NotFound exactly when there is none |
| Posts.PostsService.Create | backend/src/posts/posts.service.ts:22-32 | an unknown author gives NotFound and changes nothing; otherwise exactly the new post is appended and returned; the table stays in time order |
| Posts.PostsService.FindAll | backend/src/posts/posts.service.ts:34-48 | the total is the number of posts; the page is the right slice of the posts in reverse insertion order; it runs from newest to oldest `createdAt`, earlier pages hold no older post and later pages no newer |
| Posts.PostsService.Update | backend/src/posts/posts.service.ts:63-73 | NotFound for a missing post; Forbidden for a non-author; failures change nothing; a success applies the DTO to that row only and returns the updated row |
| Posts.PostsService.Remove | backend/src/posts/posts.service.ts:75-83 | NotFound for a missing post; Forbidden for a non-author; failures change nothing; a success removes exactly that one post |
| Posts.PostsService.LikePost | backend/src/posts/posts.service.ts:85-95 | NotFound for a missing post; otherwise that post gains one like, whoever calls, and is returned |
| Posts.PostsService.AddComment | backend/src/posts/posts.service.ts:97-110 | NotFound for a missing post, then for a missing user; failures change nothing; a success appends exactly the returned comment |
| Posts.PostsService.GetComments | backend/src/posts/posts.service.ts:112-129 | NotFound exactly when the post is missing; otherwise the total is the post's comment count, and the page is the right slice of that post's comments in reverse insertion order; every listed comment belongs to the post; the page runs from newest to oldest `createdAt`, earlier pages hold no older comment and later pages no newer |
| Posts.PostsService.SendCoins | backend/src/posts/posts.service.ts:131-159 | a refused tip reports `TipCheck`'s error and changes nothing; an accepted one moves the amount to the author (`Move`), adds it to the post's `coinsReceived`, conserves the total, and keeps balances non-negative; no ledger row is written |
| Posts.PostsService.Tip | backend/src/posts/posts.service.ts:148-154 | both balance updates, then the post's coins; the total is conserved |
| NotificationContext.UnreadCount | mobile/src/context/NotificationContext.tsx:161 | at most the list's length, and zero exactly when every notification is read |
| NotificationContext.AddNotification | mobile/src/context/NotificationContext.tsx:164-172 | the new item, with the supplied id and time, comes first, followed by the old list |
| NotificationContext.AddNotificationUnread | mobile/src/context/NotificationContext.tsx:164-172 | the unread count rises by one exactly when the new item is unread |
| NotificationContext.MarkAsRead | mobile/src/context/NotificationContext.tsx:175-181 | the items with that id become read; all others are unchanged |
| NotificationContext.MarkAllAsRead | mobile/src/context/NotificationContext.tsx:184-188 | every item becomes read and nothing else changes |
| NotificationContext.MarkAllAsReadClearsUnread | mobile/src/context/NotificationContext.tsx:184-188 | afterwards the unread count is zero |
| NotificationContext.MarkAsReadIdempotent | mobile/src/context/NotificationContext.tsx:175-181 | marking the same id twice equals marking it once |
| NotificationContext.MarkAllAsReadIdempotent | mobile/src/context/NotificationContext.tsx:184-188 | marking all twice equals marking all once |
| NotificationContext.MarkAllAbsorbsMarkAsRead | mobile/src/context/NotificationContext.tsx:175-188 | marking one item before marking all makes no difference |
| NotificationContext.MarkAsReadCount | mobile/src/context/NotificationContext.tsx:175-181 | the unread count drops by exactly the number of unread items with that id |
| NotificationContext.MarkAsReadUnread | mobile/src/context/NotificationContext.tsx:175-181 | the unread count never rises; it falls exactly when an unread item has the id; otherwise the list is unchanged |
| NotificationsScreen.FilteredNotifications | mobile/src/screens/NotificationsScreen.tsx:57-63 | the "all" tab is the list; the "unread" tab holds exactly the unread items |
| NotificationsScreen.UnreadTabMatchesCount | mobile/src/screens/NotificationsScreen.tsx:57-63 | the unread tab has as many items as the unread count |
| NotificationsScreen.UnreadTabKeepsOrder | mobile/src/screens/NotificationsScreen.tsx:57-63 | the unread tab keeps the list's order |
| NotificationsScreen.HandleNotificationPress | mobile/src/screens/NotificationsScreen.tsx:73-102 | the tapped id is always marked read; the rewards screen opens exactly for a reward notification with a reward id; a post log line names the notification's post; a system notification does nothing |
| NotificationsScreen.TapMarksRead | mobile/src/screens/NotificationsScreen.tsx:73-75 | a tapped item is read afterwards, and the unread count does not rise |
| NotificationsScreen.ShowMarkAll | mobile/src/screens/NotificationsScreen.tsx:208 | the control shows exactly when some item is unread |
| NotificationsScreen.MarkAllHidesControl | mobile/src/screens/NotificationsScreen.tsx:208 | after marking all as read, the control disappears |
| RelativeTime.FormatDate | mobile/src/screens/NotificationsScreen.tsx:40-54 | seconds exactly below a minute, shown as they are; every other unit shows the whole count that brackets the elapsed time, in the unit's range |
| RelativeTime.FormatDateBounds | mobile/src/screens/NotificationsScreen.tsx:40-54 | 1 to 59 minutes, 1 to 23 hours, at least one day |
| RelativeTime.FormatDateMonotone | mobile/src/screens/NotificationsScreen.tsx:40-54 | an older timestamp never shows a smaller unit or a smaller age |
| RelativeTime.FormatDateError | mobile/src/screens/NotificationsScreen.tsx:40-54 | the shown age is never more than the real one, and short of it by less than one unit |
| Common.TrimEmptyIffBlank | mobile/src/screens/HomeScreen.tsx:184 | `trim() === ''` holds exactly when the text is all JavaScript whitespace |
| HomeScreen.IsPremiumPost | mobile/src/screens/HomeScreen.tsx:186-189 | true exactly when the first post with that id exists and is premium |
| HomeScreen.IsPostAuthor | mobile/src/screens/HomeScreen.tsx:232-234 | nobody is the author when logged out; a logged-in viewer is the author exactly when the ids agree |
| HomeScreen.ToggleLike | mobile/src/screens/HomeScreen.tsx:161-176 | the liked flag flips, and the counter goes up when it becomes liked and down otherwise; nothing else changes |
| HomeScreen.HandleLike | mobile/src/screens/HomeScreen.tsx:158-180 | only the posts with that id are toggled |
| HomeScreen.HandleLikeTwice | mobile/src/screens/HomeScreen.tsx:158-180 | a like never changes the others' likes, and a second tap restores the feed |
| HomeScreen.AddCommentCount | mobile/src/screens/HomeScreen.tsx:199-209 | only the posts with that id gain one comment |
| HomeScreen.HandleComment | mobile/src/screens/HomeScreen.tsx:183-214 | blank text is ignored; a premium post with fewer than 0.05 coins is refused; neither changes anything; a posted comment counts on its post, costs 0.05 on a premium post and never takes the coins below zero, and clears the input |
| HomeScreen.CommentTouchesOnePost | mobile/src/screens/HomeScreen.tsx:199-209 | of all the posts, only the commented one changes, and only by one comment |
| HomeScreen.ToggleHideComments | mobile/src/screens/HomeScreen.tsx:217-229 | only the posts with that id flip their hidden flag |
| HomeScreen.ToggleHideCommentsInvolution | mobile/src/screens/HomeScreen.tsx:217-229 | toggling twice restores the feed |
| HomeScreen.CommentsVisible | mobile/src/screens/HomeScreen.tsx:383 | the comment list shows exactly when comments are not hidden or the viewer is the author |
| HomeScreen.CommentAreaShowsOne | mobile/src/screens/HomeScreen.tsx:341 | exactly one of the comment list and the hidden notice at line 383 appears; the author always sees the list |
| HomeScreen.BadgeText | mobile/src/screens/HomeScreen.tsx:424-428 | no badge at 0; the single digit itself from 1 to 9; "9+" above |
| Search.Hits | mobile/src/screens/SearchScreen.tsx:204-208 | the hits are exactly the items that contain the lower-cased query |
| Search.HitsKeepOrder | mobile/src/screens/SearchScreen.tsx:204-208 | filtering keeps catalog order |
| Search.Section | mobile/src/screens/SearchScreen.tsx:203-224 | a section holds exactly the matching catalog items of its kind when the tab allows the kind, and nothing otherwise |
| Search.SearchResults | mobile/src/screens/SearchScreen.tsx:194-242 | the results are exactly the catalog items the tab allows that match the lower-cased query, users before posts before hashtags |
| Search.SectionsInRankOrder | mobile/src/screens/SearchScreen.tsx:209-223 | users, then posts, then hashtags, appended, are in rank order |
| Search.ResultType | mobile/src/screens/SearchScreen.tsx:230-240 | null exactly when there are no results |
| Search.ResultTypeIsFirstSection | mobile/src/screens/SearchScreen.tsx:230-240 | the type is "user" exactly when some user is listed, and "post" exactly when no user is listed and some post is |
| Search.PerformSearch | mobile/src/screens/SearchScreen.tsx:194-242 | the three conditional appends build exactly `SearchResults`, and the type of its first item |
| Search.OnQueryChange | mobile/src/screens/SearchScreen.tsx:179-191 | a blank query clears the results and the type; any other query is searched untrimmed; the type is null exactly when there are no results |
| Search.Remember | mobile/src/screens/SearchScreen.tsx:255-257 | a known entry leaves the list as it is; a new one goes first, ahead of at most four old entries |
| Search.ResultTap | mobile/src/screens/SearchScreen.tsx:251-277 | users and hashtags are remembered and posts are not; the list never grows beyond five and only gains the tapped label |
| Search.ResultTapIdempotent | mobile/src/screens/SearchScreen.tsx:251-277 | tapping the same result again changes nothing |
| Search.ResultTapKeepsDistinct | mobile/src/screens/SearchScreen.tsx:251-277 | a list without duplicates stays without duplicates |
| Search.ClearRecentSearches | mobile/src/screens/SearchScreen.tsx:280-282 | the list becomes empty |
| Search.ClearThenTap | mobile/src/screens/SearchScreen.tsx:251-282 | after clearing, the next remembered tap is the only entry |
| Search.ResultKey | mobile/src/screens/SearchScreen.tsx:552-556 | the key ends in "-" and the result's id, and starts with "user-" exactly for a user and "post-" exactly for a post |
| Search.ResultKeyInjective | mobile/src/screens/SearchScreen.tsx:552-556 | two results share a list key exactly when they have the same kind and id |
| Wallet.FilteredTransactions | mobile/src/screens/WalletScreen.tsx:261-269 | "all" is the list; "received" holds exactly the rows received by the signed-in user; "sent" holds exactly the rows that user sent |
| Wallet.FilteredTransactionsKeepOrder | mobile/src/screens/WalletScreen.tsx:261-269 | every tab keeps the list's order |
| Wallet.SignedOutTabsEmpty | mobile/src/screens/WalletScreen.tsx:265-267 | signed out, the received and sent tabs are empty |
| Wallet.IsIncoming | mobile/src/screens/WalletScreen.tsx:386 | signed in, a row is incoming exactly when the user received it; signed out, exactly when it goes to user "101" |
| Wallet.IncomingMatchesReceivedTab | mobile/src/screens/WalletScreen.tsx:386 | signed in with a non-empty id, a row is marked incoming exactly when the received tab lists it |
| Wallet.SignedOutMarkerUsesPlaceholder | mobile/src/screens/WalletScreen.tsx:386 | signed out, rows to user "101" are marked incoming although the received tab is empty |
| Wallet.ReceivedAndSentDisjoint | mobile/src/screens/WalletScreen.tsx:264-268 | a transfer between two different users is never on both tabs |
| Rewards.FilteredRewards | mobile/src/screens/RewardsScreen.tsx:112-117 | "all" is the catalogue; a category tab holds exactly the rewards of that category |
| Rewards.FilteredRewardsKeepOrder | mobile/src/screens/RewardsScreen.tsx:112-117 | a tab keeps the catalogue's order |
| Rewards.CategoryTabsPartition | mobile/src/screens/RewardsScreen.tsx:112-117 | the four category tabs together list every reward exactly once |
| Rewards.FeaturedRewards | mobile/src/screens/RewardsScreen.tsx:120-122 | exactly the featured rewards |
| Rewards.FeaturedRewardsKeepOrder | mobile/src/screens/RewardsScreen.tsx:120-122 | the featured strip keeps the catalogue's order |
| Rewards.ShowFeatured | mobile/src/screens/RewardsScreen.tsx:391 | the strip shows exactly on the "all" tab when some reward is featured |
| Rewards.CannotAfford | mobile/src/screens/RewardsScreen.tsx:127 | never for a signed-out visitor; for a signed-in user, exactly when the price is above their coins, an unset balance counting as 0 |
| Rewards.HandlePurchaseReward | mobile/src/screens/RewardsScreen.tsx:125-150 | "insufficient funds" exactly when a signed-in user's coins (unset counting as 0) are below the price; otherwise the confirmation for that reward |
| Rewards.BuyDisabled | mobile/src/screens/RewardsScreen.tsx:225 | the buy button is disabled exactly when the purchase would be refused |
| Rewards.BuyLabel | mobile/src/screens/RewardsScreen.tsx:353-356 | "Acquista Premio" exactly when a signed-in user can afford the reward |
| Rewards.SignedOutCanBuy | mobile/src/screens/RewardsScreen.tsx:347-356 | signed out, the button reads "Coin Insufficienti" yet is enabled and leads to the confirmation |
| Rewards.SignedInLabelMatchesButton | mobile/src/screens/RewardsScreen.tsx:347-356 | signed in, the label offers the purchase exactly when the button is enabled |
| Rewards.CategoryLabel | mobile/src/screens/RewardsScreen.tsx:326-330 | the label of each of the four categories |
| Rewards.CategoryLabelInjective | mobile/src/screens/RewardsScreen.tsx:326-330 | no two categories share a label |
| PasswordRule.MatchesAt | backend/src/auth/dto/register.dto.ts:16 | a match needs a character to start at, and then the whole password has an uppercase letter, a lowercase letter, and a digit or a non-word character |
| PasswordRule.Matches | backend/src/auth/dto/register.dto.ts:16 | a password the pattern accepts is non-empty and has the three character classes |
| PasswordRule.SingleLineMatches | backend/src/auth/dto/register.dto.ts:16 | on a one-line password, the pattern matches exactly when the part after the leading dots has an uppercase letter, a lowercase letter, and a digit or a non-word character |
| PasswordRule.PlainPasswordMatches | backend/src/auth/dto/register.dto.ts:16 | for a one-line password not starting with '.', the pattern is exactly the three character classes |
| PasswordRule.LeadingDotRefused | backend/src/auth/dto/register.dto.ts:16-18 | ".Abcdefg" has all the classes its message asks for, yet is refused |
| Auth.RegisterDtoValid | backend/src/auth/dto/register.dto.ts:4-19 | a body the pipe accepts has every field non-empty and a password with the three character classes |
| Common.Utf16Length | mobile/src/screens/RegisterScreen.tsx:34 | JavaScript's `.length` is never below the number of characters, and equals it exactly when no character lies above U+FFFF |
| RegisterScreen.IsPasswordValid | mobile/src/screens/RegisterScreen.tsx:22-25 | an accepted password has the three character classes; on one line and without a leading '.', the check is exactly the three classes |
| RegisterScreen.HandleRegister | mobile/src/screens/RegisterScreen.tsx:27-52 | each error exactly when every earlier check passed and its own fails, in the screen's order, with lengths in UTF-16 code units; no error exactly when the form passes all checks |
| RegisterScreen.ClientAcceptanceImpliesServerValid | mobile/src/screens/RegisterScreen.tsx:27-58 | a form the screen sends on, with no character above U+FFFF in the name or the password, passes the server's DTO checks |
| RegisterScreen.ServerValidPassesClient | backend/src/auth/dto/register.dto.ts:4-19 | a body the server accepts, with the password confirmed, passes every client check |
| RegisterScreen.AstralPasswordPassesClientOnly | mobile/src/screens/RegisterScreen.tsx:44 | "Aa1b" followed by two emoji passes every check of the screen, but the server refuses it as shorter than 8 characters |
| RegisterScreen.EmojiPasswordLength | mobile/src/screens/RegisterScreen.tsx:44 | that password is 6 characters and 8 UTF-16 code units long |
| RegisterScreen.EmojiPasswordMatches | backend/src/auth/dto/register.dto.ts:16 | that password matches the pattern |
| RegisterScreen.HandleRegisterCorrected | mobile/src/screens/RegisterScreen.tsx:27-58 | with lengths counted in characters, the screen sends on exactly the forms whose password is confirmed and whose body the server accepts; without characters above U+FFFF it agrees with the screen as written |
| SendMoney.Clean | mobile/src/screens/SendMoneyScreen.tsx:45 | only digits and dots remain, and every digit and dot of the input is kept |
| SendMoney.CleanKeepsAmount | mobile/src/screens/SendMoneyScreen.tsx:45 | text of digits and dots passes unchanged |
| SendMoney.ValidateAmount | mobile/src/screens/SendMoneyScreen.tsx:43-59 | the result holds only digits and at most one dot, and keeps the whole-coin digits of the cleaned input |
| SendMoney.ValidateAmountCases | mobile/src/screens/SendMoneyScreen.tsx:43-59 | with no dot, the cleaned text; with one dot, the fraction cut to two digits; with several, the later dots dropped and the fraction kept whole |
| SendMoney.ValidateAmountNoDot | mobile/src/screens/SendMoneyScreen.tsx:58 | without a dot the cleaned text is returned |
| SendMoney.ValidateAmountOneDot | mobile/src/screens/SendMoneyScreen.tsx:54-55 | with one dot the fraction is cut to two digits |
| SendMoney.ValidateAmountManyDots | mobile/src/screens/SendMoneyScreen.tsx:49-50 | with several dots the later dots are dropped |
| SendMoney.ValidateAmountShape | mobile/src/screens/SendMoneyScreen.tsx:43-59 | the field holds only digits and at most one dot, and at most two decimals when the input had at most one dot |
| SendMoney.ShapeOneDot | mobile/src/screens/SendMoneyScreen.tsx:54-55 | one dot in the result, and at most two digits after it |
| SendMoney.ShapeManyDots | mobile/src/screens/SendMoneyScreen.tsx:49-50 | exactly one dot in the result |
| SendMoney.ValidateAmountKeepsWellFormed | mobile/src/screens/SendMoneyScreen.tsx:43-59 | whole numbers and numbers with up to two decimals pass unchanged |
| SendMoney.ValidateAmountTwice | mobile/src/screens/SendMoneyScreen.tsx:62-64 | sanitising the field's text again leaves at most one dot and two decimals |
| SendMoney.MultiDotJoinsFraction | mobile/src/screens/SendMoneyScreen.tsx:49-51 | digits, dot, digits, dot, digits: the second dot is dropped |
| SendMoney.MultiDotKeepsLongFraction | mobile/src/screens/SendMoneyScreen.tsx:49-51 | with two dots, every digit after the first dot is kept, whatever their number |
| SendMoney.PastedAmountExample | mobile/src/screens/SendMoneyScreen.tsx:49-51 | "1.2.345" becomes "1.2345", with four decimals |
| SendMoney.ValidateAmountCorrected | mobile/src/screens/SendMoneyScreen.tsx:43-59 | digits and at most one dot, at most two decimals, and the whole part of the cleaned input |
| SendMoney.CorrectedIdempotent | mobile/src/screens/SendMoneyScreen.tsx:43-59 | the corrected sanitiser leaves its own output unchanged |
| SendMoney.CorrectedAgrees | mobile/src/screens/SendMoneyScreen.tsx:53-58 | where the cleaned input has at most one dot, the correction changes nothing |
| SendMoney.ParseFloat | mobile/src/screens/SendMoneyScreen.tsx:75 | NaN exactly when the text starts neither with a digit nor with a dot and a digit; a number has fewer decimals than the text has characters |
| SendMoney.ParseAmount | mobile/src/screens/SendMoneyScreen.tsx:75-80 | on the field's contents, `parseFloat` is NaN exactly for "" and "."; otherwise it reads every digit, with as many decimals as follow the dot |
| SendMoney.ParseAmountOneDot | mobile/src/screens/SendMoneyScreen.tsx:75-80 | with one dot, NaN exactly for "." |
| SendMoney.ParseAmountNoDot | mobile/src/screens/SendMoneyScreen.tsx:75-80 | without a dot, NaN exactly for "" |
| SendMoney.SendMoneyCheck | mobile/src/screens/SendMoneyScreen.tsx:68-92 | each of the five outcomes exactly when every earlier check passed and its own fails (missing recipient, invalid amount, insufficient funds, the 0.50 limit) or, for the confirmation, when all pass; the confirmed amount is the parsed field, and a numeric one is positive, within the limit and within the user's coins |
| SendMoney.LoneDotReachesConfirmation | mobile/src/screens/SendMoneyScreen.tsx:75-92 | a lone "." survives the sanitiser and reaches the confirmation as NaN |
| SendMoney.SendMoneyCheckCorrected | mobile/src/screens/SendMoneyScreen.tsx:68-92 | with the amount check refusing anything not above zero, each outcome exactly when the earlier checks pass and its own fails; every confirmed amount is a number, positive, within the limit and within the user's coins |
| SendMoney.CorrectedCheckDiffersOnlyOnLoneDot | mobile/src/screens/SendMoneyScreen.tsx:75-78 | on the field's possible contents the two checks differ only for "." |

## Left out

- Floating point. Amounts are exact hundredths. Rounding of JavaScript numbers (such as `prev - 0.05` on the home screen, or `0.1 + 0.2`) is not modelled.
- Concurrency. The two `updateCoinBalance` calls and the ledger insert run one after the other with nothing in between. No database transaction is modelled, because the source uses none.
- Pagination.NewestFirstPage: requires page >= 1 and limit >= 1. The controllers pass other values through, and what the database does with a negative skip or take is not part of this model. The same holds for Coins.CoinsService.GetUserTransactions, Posts.PostsService.FindAll and Posts.PostsService.GetComments.
- Auth.AuthService.Register: when the e-mail matches one row and the username another, which of the two conflicts is reported depends on the row the database returns first. The contract only says that one of them is reported, and that each is reported only when it exists.
- Auth.RegisterDtoValid: the `@IsEmail` syntax check is reduced to "not empty". `@MinLength` is taken to count characters, a surrogate pair once; newer validator.js versions also leave U+FE0E and U+FE0F out of the count, which is not modelled.
- RegisterScreen.ClientAcceptanceImpliesServerValid: holds only for names and passwords without characters above U+FFFF. The screen counts UTF-16 code units and the server counts characters, so longer text can pass the screen and fail the server; see "Findings".
- Pagination.NewestFirst: rows with the same `createdAt` come out latest inserted first. The database orders such ties as it likes, so `Coins.CoinsService.GetUserTransactions`, `Posts.PostsService.FindAll` and `Posts.PostsService.GetComments` fix one of the orders the source allows. Their contracts also say the page is sorted by `createdAt`, which holds for every tie order.
- Coins.CoinsService.Transfer, Posts.PostsService.Create and Posts.PostsService.AddComment require `now` to be no earlier than every stored `createdAt` of their table: the clock is taken not to run back.
- Posts.PostsService.SendCoins: the amount is taken to be a number. The body at backend/src/posts/posts.controller.ts:108 is not validated or converted, so a string amount such as "5" passes the checks at backend/src/posts/posts.service.ts:132 and :144 and is then joined as text by `+=` at backend/src/users/users.service.ts:55 and backend/src/posts/posts.service.ts:153 (10 and "5" give "105"). A missing amount turns the balances into NaN. JavaScript's loose typing is not modelled.
- Posts.PostsService.AddComment: the content is taken to be a string. The body at backend/src/posts/posts.controller.ts:89 is not validated, so a missing or non-string content reaches the repository unchecked.
- Hashing, salting, JWT signing, the clock and id generation are parameters. Their own behaviour is not modelled.
- `UsersService.findAll` (backend/src/users/users.service.ts:13-15) is a plain table read and is left out.
- The `relations` loaded alongside rows are left out.
- `update-post.dto.ts` is not part of this model. `UpdatePostDto` is taken to be every field of `CreatePostDto`, each optional.
- Database referential actions, such as what happens to comments when a post is deleted, are not part of this model.
- The boost columns of posts and the profile text columns of users are left out. The service never reads them.
- `Common.ToLower` lowercases ASCII letters only. `toLowerCase` on other letters is not modelled, so search matches involving non-ASCII capitals can differ.
- Posts.PostsService.Create: the repository's `create` is modelled as the column defaults plus the DTO. The database assigns the id and the time, and these arrive as parameters.
- Alerts, navigation, `console.log` targets, AsyncStorage persistence, pull-to-refresh and the `setTimeout` debounce and delays are left out. Each screen handler is modelled by the state it leaves behind and the dialog or effect it chooses.
- The mock user and the dummy data of the screens are left out. This includes the wallet's mock-user effect (mobile/src/screens/WalletScreen.tsx:231-241) and the dummy search catalogs; the catalogs are parameters.
- Search's `handleRecentSearchTap` only sets the query and searches, so it is covered by `Search.PerformSearch`.
- Icons, colours and avatar fields are left out. This includes `getTransactionIcon`.
- The wallet's reward tab (mobile/src/screens/WalletScreen.tsx:272-277, 308-329, 461-467) is `Rewards.FilteredRewards`, `Rewards.HandlePurchaseReward` and `Rewards.BuyDisabled`. Its details sheet uses the texts "Acquista ora" and "Fondi insufficienti" instead of the store's, under the same condition as `Rewards.BuyLabel`.
- SendMoney.SendMoneyCheck: requires the amount to consist of digits and dots. It relies on the field being written only by `validateAmount` through `handleAmountChange`.
- Posts.PostsService.Update: the DTO is applied to the row as a whole. Type coercion by the validation pipe is not modelled.
- `ProfileScreen`, `LoginScreen`, `AuthContext` and `ThemeContext` are not part of this model.

## Findings

| source | as written | input that shows it | evidently intended | confidence | as-written member | corrected member |
|---|---|---|---|---|---|---|
| mobile/src/screens/SendMoneyScreen.tsx:49-51 | With two or more dots, the later dots are dropped and the function returns before the two-decimal cut. | Pasting "1.2.345" leaves "1.2345" in the amount field: four decimals. | At most two decimals whatever was typed, as the cut at lines 53-56 intends. | not executed | SendMoney.PastedAmountExample | SendMoney.ValidateAmountCorrected |
| mobile/src/screens/RegisterScreen.tsx:44 | The screen checks `password.length < 8`, counting UTF-16 code units, while the server's `@MinLength(8)` (backend/src/auth/dto/register.dto.ts:15) counts a surrogate pair as one character. | The password "Aa1b" followed by two emoji is 8 code units but 6 characters long: the screen sends it and the server refuses it as too short. | The screen accepts exactly the passwords the server accepts. | not executed; assumes a validator.js version that counts a surrogate pair once | RegisterScreen.AstralPasswordPassesClientOnly | RegisterScreen.HandleRegisterCorrected |
| mobile/src/screens/SendMoneyScreen.tsx:75-78 | `!amount \|\| parseFloat(amount) <= 0` lets NaN through, because NaN compares false with everything. The later checks at lines 83 and 89 compare false as well. | The amount "." with any recipient reaches the confirmation dialog for a NaN amount. | Only a positive number reaches the confirmation. | not executed | SendMoney.LoneDotReachesConfirmation | SendMoney.SendMoneyCheckCorrected |
