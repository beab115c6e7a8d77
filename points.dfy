/**
 * The reward exchange: a student spends points on a reward from the catalogue. The balance,
 * the reward's stock and the points-record collection are written as one step here; the
 * handler writes them one after another, with no transaction around the three.
 */
module Points {
  import opened Common
  import opened Ledger

  /** A reward of the catalogue; the schema's `min: 0` makes cost and stock naturals. */
  datatype Reward = Reward(name: string, cost: nat, stock: nat)

  /** The reward collection, by id. */
  class RewardCatalog {
    var rewards: map<RewardId, Reward>

    constructor(initial: map<RewardId, Reward>)
      ensures rewards == initial
    {
      rewards := initial;
    }
  }

  datatype ExchangeFailure = RewardNotFound | OutOfStock | UserMissing | InsufficientPoints

  /**
   * The guard chain of `exchangeReward`, in order: the reward must exist, be in stock, the
   * caller's user document must exist and hold at least the reward's cost.
   */
  function ExchangeCheck(rewards: map<RewardId, Reward>, balances: map<UserId, int>, caller: UserId,
                         rewardId: RewardId): (r: Result<Reward, ExchangeFailure>)
    ensures rewardId !in rewards ==> r == Err(RewardNotFound)
    ensures rewardId in rewards && rewards[rewardId].stock == 0 ==> r == Err(OutOfStock)
    ensures rewardId in rewards && rewards[rewardId].stock > 0 && caller !in balances ==> r == Err(UserMissing)
    ensures (rewardId in rewards && rewards[rewardId].stock > 0 && caller in balances &&
             balances[caller] < rewards[rewardId].cost) ==> r == Err(InsufficientPoints)
    ensures r.Ok? <==>
      rewardId in rewards && rewards[rewardId].stock > 0 && caller in balances &&
      balances[caller] >= rewards[rewardId].cost
    ensures r.Ok? ==> r.value == rewards[rewardId]
  {
    if rewardId !in rewards then Err(RewardNotFound)
    else
      var reward := rewards[rewardId];
      if reward.stock <= 0 then Err(OutOfStock)
      else if caller !in balances then Err(UserMissing)
      else if balances[caller] < reward.cost then Err(InsufficientPoints)
      else Ok(reward)
  }

  /** The sum of the points of `u`'s records: what the ledger says `u` gained on balance. */
  function Net(records: seq<PointsRecord>, u: UserId): int {
    if records == [] then 0
    else
      var last := records[|records| - 1];
      Net(records[..|records| - 1], u) + (if last.user == u then last.points else 0)
  }

  lemma NetAppend(records: seq<PointsRecord>, p: PointsRecord, u: UserId)
    ensures Net(records + [p], u) == Net(records, u) + (if p.user == u then p.points else 0)
  {
    assert (records + [p])[..|records|] == records;
  }

  /** The record of a spend: the cost as a negative amount. */
  function SpendRecord(caller: UserId, reward: Reward, now: Time): (p: PointsRecord)
    ensures p.user == caller && p.kind == Spend && p.points == -(reward.cost as int)
    ensures p.reason == RewardExchange(reward.name) && p.activity.None? && p.createdAt == now
  {
    PointsRecord(caller, -(reward.cost as int), Spend, RewardExchange(reward.name), None, now)
  }

  /**
   * `exchangeReward`. On success the balance drops by exactly the cost (so it stays
   * non-negative), the stock by exactly one, and one spend record is appended, so the
   * caller's balance and the caller's ledger total move together; on failure nothing changes.
   */
  method ExchangeReward(users: UserDirectory, catalog: RewardCatalog, ledger: PointsLedger,
                        caller: UserId, rewardId: RewardId, now: Time)
    returns (r: Result<(), ExchangeFailure>)
    requires users.Valid()
    modifies users, catalog, ledger
    ensures users.Valid()
    ensures var check := ExchangeCheck(old(catalog.rewards), old(users.balances), caller, rewardId);
      (check.Err? ==> r == Err(check.error)) && (check.Ok? ==> r == Ok(()))
    ensures r.Err? ==> unchanged(users, catalog, ledger)
    ensures r.Ok? ==>
      var reward := old(catalog.rewards)[rewardId];
      caller in old(users.balances) &&
      users.balances == old(users.balances)[caller := old(users.balances)[caller] - reward.cost] &&
      catalog.rewards == old(catalog.rewards)[rewardId := reward.(stock := reward.stock - 1)] &&
      ledger.records == old(ledger.records) + [SpendRecord(caller, reward, now)]
    ensures r.Ok? ==>
      users.balances[caller] - old(users.balances)[caller] == Net(ledger.records, caller) - Net(old(ledger.records), caller)
  {
    var check := ExchangeCheck(catalog.rewards, users.balances, caller, rewardId);
    if check.Err? {
      return Err(check.error);
    }
    var reward := check.value;
    users.balances := users.balances[caller := users.balances[caller] - reward.cost];
    catalog.rewards := catalog.rewards[rewardId := reward.(stock := reward.stock - 1)];
    NetAppend(ledger.records, SpendRecord(caller, reward, now), caller);
    ledger.records := ledger.records + [SpendRecord(caller, reward, now)];
    r := Ok(());
  }
}
