/** Which weekly partitions of the transaction table are listed for pruning. */
module Retention {
  import opened Common

  const SECONDS_PER_WEEK := 604800
  const MAX_CLOCK_DIFFERENCE := 86400

  /** GetEpochWeek: the week of a time, or of now if the time is not given (0). Go's division truncates, as does
      Euclidean division on the times that occur, which are not negative. */
  function EpochWeek(epoch: nat, now: nat): nat {
    (if epoch == 0 then now else epoch) / SECONDS_PER_WEEK
  }

  datatype Partition = Partition(chainId: string, week: nat)

  function KeptWeeks(setting: Option<int>): (k: int)
    ensures setting == Some(k) || (k == 1 && (setting.None? || setting.value < 1))
  {
    Max(1, if setting.Some? then setting.value else 1)
  }

  /** get_partitioned_transaction_tables_to_prune: None when the given time is too far from the server's. */
  function ToPrune(settings: map<string, Option<int>>, partitions: set<Partition>, now: nat,
                   serverNow: nat): Option<set<Partition>> {
    if serverNow - now > MAX_CLOCK_DIFFERENCE || now - serverNow > MAX_CLOCK_DIFFERENCE then None
    else Some(set p | p in partitions && p.chainId in settings
                      && now / SECONDS_PER_WEEK - p.week >= KeptWeeks(settings[p.chainId]) + 1)
  }

  /** The partition a transaction of that time is stored in. */
  predicate StoredIn(p: Partition, chainId: string, epoch: nat) {
    p.chainId == chainId && epoch > 0 && p.week == EpochWeek(epoch, 0)
  }

  lemma WeekBounds(epoch: nat)
    ensures SECONDS_PER_WEEK * (epoch / SECONDS_PER_WEEK) <= epoch < SECONDS_PER_WEEK * (epoch / SECONDS_PER_WEEK)
        + SECONDS_PER_WEEK
  {
  }

  /** The given time may differ from the server's by a day at most. */
  lemma ClockIsChecked(settings: map<string, Option<int>>, partitions: set<Partition>, now: nat, serverNow: nat)
    ensures ToPrune(settings, partitions, now, serverNow).Some? <==> serverNow - 86400 <= now <= serverNow + 86400
  {
  }

  /** A listed partition holds only transactions more than k weeks old, with k = max(1, configured weeks). */
  lemma ListedIsOld(settings: map<string, Option<int>>, partitions: set<Partition>, now: nat, serverNow: nat,
                    p: Partition, epoch: nat)
    requires ToPrune(settings, partitions, now, serverNow).Some?
        && p in ToPrune(settings, partitions, now, serverNow).value
    requires StoredIn(p, p.chainId, epoch)
    ensures now - epoch > KeptWeeks(settings[p.chainId]) * 604800
    ensures serverNow - epoch > KeptWeeks(settings[p.chainId]) * 604800 - 86400
  {
    WeekBounds(now);
    WeekBounds(epoch);
  }

  /** A transaction k + 1 weeks old or older lies in a listed partition. */
  lemma OldIsListed(settings: map<string, Option<int>>, partitions: set<Partition>, now: nat, serverNow: nat,
                    p: Partition, epoch: nat)
    requires ToPrune(settings, partitions, now, serverNow).Some? && p in partitions && p.chainId in settings
    requires StoredIn(p, p.chainId, epoch)
    requires now - epoch >= (KeptWeeks(settings[p.chainId]) + 1) * 604800
    ensures p in ToPrune(settings, partitions, now, serverNow).value
  {
    WeekBounds(now);
    WeekBounds(epoch);
  }

  /** Neither bound can be improved: for every k some transaction only k weeks and a second old is in a listed
      partition, and some transaction a second short of k + 1 weeks is in none. */
  lemma BoundsAreTight(chainId: string, k: nat)
    requires k >= 1
    ensures var settings, w := map[chainId := Some(k as int)], 604800;
            var p, now := Partition(chainId, 1), (k + 2) * w;
            && StoredIn(p, chainId, 2 * w - 1) && now - (2 * w - 1) == k * w + 1
            && p in ToPrune(settings, {p}, now, now).value
            && StoredIn(p, chainId, w) && (now - 1) - w == (k + 1) * w - 1
            && p !in ToPrune(settings, {p}, now - 1, now - 1).value
  {
    WeekBounds((k + 2) * 604800);
    WeekBounds((k + 2) * 604800 - 1);
  }
}
