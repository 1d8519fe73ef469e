/**
 * The reward store, as both the rewards screen and the wallet's rewards tab
 * show it: the category tabs, the featured strip, the affordability check
 * behind the buy buttons, and the purchase guard. Prices and coins are in
 * hundredths.
 */
module Rewards {
  import opened Common

  datatype RewardCategory = Digital | Physical | Donation | Experience

  datatype Reward = Reward(
    id: string,
    title: string,
    price: int,
    category: RewardCategory,
    featured: bool,
    available: bool)

  /** The selected tab: `'all'` or one category id. */
  datatype CategorySelection = AllCategories | Only(category: RewardCategory)

  /** The signed-in user as the store sees it: `user` and `user.coins`. */
  datatype Viewer = Viewer(coins: Option<int>)

  /** `user.coins || 0`. */
  function CoinsOf(v: Viewer): int {
    match v.coins
    case None => 0
    case Some(c) => c
  }

  function InCategory(c: RewardCategory): Reward -> bool {
    (r: Reward) => r.category == c
  }

  /** `getFilteredRewards()`. */
  function FilteredRewards(rewards: seq<Reward>, sel: CategorySelection): (r: seq<Reward>)
    ensures sel == AllCategories ==> r == rewards
    ensures sel.Only? ==> forall x :: x in r <==> x in rewards && x.category == sel.category
  {
    match sel
    case AllCategories => rewards
    case Only(c) => FilterMembers(InCategory(c), rewards); Filter(InCategory(c), rewards)
  }

  /** The tab keeps the list's order: it commutes with splitting the list. */
  lemma FilteredRewardsKeepOrder(a: seq<Reward>, b: seq<Reward>, sel: CategorySelection)
    ensures FilteredRewards(a + b, sel) == FilteredRewards(a, sel) + FilteredRewards(b, sel)
  {
    if sel.Only? {
      FilterAppend(InCategory(sel.category), a, b);
    }
  }

  /** The four category tabs split the catalogue: every reward is on exactly one of them. */
  lemma CategoryTabsPartition(rewards: seq<Reward>)
    ensures |FilteredRewards(rewards, Only(Digital))| + |FilteredRewards(rewards, Only(Physical))|
            + |FilteredRewards(rewards, Only(Donation))| + |FilteredRewards(rewards, Only(Experience))|
            == |rewards|
  {
    PartitionCount(rewards);
  }

  lemma {:induction false} PartitionCount(rewards: seq<Reward>)
    ensures |Filter(InCategory(Digital), rewards)| + |Filter(InCategory(Physical), rewards)|
            + |Filter(InCategory(Donation), rewards)| + |Filter(InCategory(Experience), rewards)|
            == |rewards|
  {
    if rewards != [] {
      PartitionCount(rewards[1..]);
    }
  }

  predicate IsFeatured(r: Reward) { r.featured }

  /** `getFeaturedRewards()`. */
  function FeaturedRewards(rewards: seq<Reward>): (r: seq<Reward>)
    ensures forall x :: x in r <==> x in rewards && x.featured
  {
    FilterMembers(IsFeatured, rewards);
    Filter(IsFeatured, rewards)
  }

  lemma FeaturedRewardsKeepOrder(a: seq<Reward>, b: seq<Reward>)
    ensures FeaturedRewards(a + b) == FeaturedRewards(a) + FeaturedRewards(b)
  {
    FilterAppend(IsFeatured, a, b);
  }

  /** `selectedCategory === 'all' && getFeaturedRewards().length > 0`. */
  function ShowFeatured(rewards: seq<Reward>, sel: CategorySelection): (show: bool)
    ensures show <==> sel == AllCategories && exists i :: 0 <= i < |rewards| && rewards[i].featured
  {
    var featured := FeaturedRewards(rewards);
    assert featured != [] ==> featured[0] in featured;
    assert forall i :: 0 <= i < |rewards| && rewards[i].featured ==> rewards[i] in featured;
    sel == AllCategories && |featured| > 0
  }

  /** `user && reward.price > (user.coins || 0)`: the signed-in user cannot afford it. */
  function CannotAfford(user: Option<Viewer>, reward: Reward): (b: bool)
    // a signed-out visitor is never stopped, and an unset balance counts as 0
    ensures b ==> user.Some?
    ensures user.Some? && user.value.coins.None? ==> (b <==> reward.price > 0)
    ensures user.Some? && user.value.coins.Some? ==> (b <==> reward.price > user.value.coins.value)
  {
    user.Some? && reward.price > CoinsOf(user.value)
  }

  datatype PurchaseStep = InsufficientFunds | ConfirmPurchase(reward: Reward)

  /** `handlePurchaseReward(reward)`: the alert it opens. */
  function HandlePurchaseReward(user: Option<Viewer>, reward: Reward): (step: PurchaseStep)
    ensures step == InsufficientFunds <==>
              user.Some? && reward.price > (if user.value.coins.Some? then user.value.coins.value else 0)
    ensures step.ConfirmPurchase? ==> step.reward == reward
  {
    if CannotAfford(user, reward) then InsufficientFunds else ConfirmPurchase(reward)
  }

  /** `disabled={!!(user && item.price > (user.coins || 0))}`. */
  function BuyDisabled(user: Option<Viewer>, reward: Reward): (disabled: bool)
    ensures disabled <==> HandlePurchaseReward(user, reward) == InsufficientFunds
  {
    CannotAfford(user, reward)
  }

  /** The details sheet's button text. */
  function BuyLabel(user: Option<Viewer>, reward: Reward): (text: string)
    ensures text == "Acquista Premio" <==> user.Some? && reward.price <= CoinsOf(user.value)
  {
    if user.Some? && reward.price <= CoinsOf(user.value) then "Acquista Premio" else "Coin Insufficienti"
  }

  /**
   * The two checks disagree for a signed-out viewer: the button reads
   * "Coin Insufficienti" yet stays enabled and leads to the confirmation.
   */
  lemma SignedOutCanBuy(reward: Reward)
    ensures !BuyDisabled(None, reward)
    ensures BuyLabel(None, reward) == "Coin Insufficienti"
    ensures HandlePurchaseReward(None, reward) == ConfirmPurchase(reward)
  {
  }

  /** For a signed-in viewer the label and the enabled state agree. */
  lemma SignedInLabelMatchesButton(v: Viewer, reward: Reward)
    ensures BuyLabel(Some(v), reward) == "Acquista Premio" <==> !BuyDisabled(Some(v), reward)
  {
  }

  /** The category line of the details sheet; anything not listed reads as an experience. */
  function CategoryLabel(c: RewardCategory): (text: string)
    ensures c == Digital ==> text == "Premio Digitale"
    ensures c == Physical ==> text == "Premio Fisico"
    ensures c == Donation ==> text == "Donazione"
    ensures c == Experience ==> text == "Esperienza"
  {
    if c == Digital then "Premio Digitale"
    else if c == Physical then "Premio Fisico"
    else if c == Donation then "Donazione"
    else "Esperienza"
  }

  /** No two categories share a label. */
  lemma CategoryLabelInjective(a: RewardCategory, b: RewardCategory)
    ensures CategoryLabel(a) == CategoryLabel(b) <==> a == b
  {
    if CategoryLabel(a) == CategoryLabel(b) {
      assert |CategoryLabel(a)| == |CategoryLabel(b)|;
    }
  }
}
