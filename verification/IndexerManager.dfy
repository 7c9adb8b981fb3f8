/** The manager that keeps one running indexer per enabled chain, reload after reload
    (indexer/services/per_chain_indexer/manager.go, indexer_controller.go).
    URL lists are arrays because comparing them sorts them in place, also when several configurations share one. */
module IndexerManager {
  import opened UrlLists

  datatype ChainConfig = ChainConfig(chainId: string, urls: array<string>, disable: bool)

  type ChainList = map<string, ChainConfig>

  function Enabled(list: ChainList): set<string> {
    set name | name in list && !list[name].disable
  }

  /** The URLs each array holds, in whatever order. */
  type UrlContents = map<array<string>, multiset<string>>

  ghost predicate Hold(urlsOf: UrlContents)
    reads urlsOf.Keys
  {
    forall a :: a in urlsOf ==> multiset(a[..]) == urlsOf[a]
  }

  ghost predicate SameUrls(c: ChainConfig, d: ChainConfig, urlsOf: UrlContents) {
    c.urls in urlsOf && d.urls in urlsOf && urlsOf[c.urls] == urlsOf[d.urls]
  }

  datatype Snapshot = Snapshot(config: ChainConfig, activeUrl: string)

  class Indexer {
    const chainName: string
    const chainId: string
    var config: ChainConfig
    var activeUrl: string
    var shutdown: bool

    constructor (chainName: string, config: ChainConfig)
      ensures this.chainName == chainName && chainId == config.chainId
      ensures this.config == config && activeUrl == "" && !shutdown
    {
      this.chainName, chainId := chainName, config.chainId;
      this.config, activeUrl, shutdown := config, "", false;
    }

    method Shutdown()
      modifies this`shutdown
      ensures shutdown
    {
      shutdown := true;
    }

    /** Refused for another chain. Otherwise the configuration is replaced, and the active URL is cleared exactly if the
        URLs are not the same ones with the same multiplicities. */
    method Reload(newConfig: ChainConfig) returns (ok: bool)
      modifies this`config, this`activeUrl, config.urls, newConfig.urls
      ensures ok <==> newConfig.chainId == chainId
      ensures config == if ok then newConfig else old(config)
      ensures activeUrl == if ok && multiset(old(config.urls[..])) != multiset(old(newConfig.urls[..]))
                           then "" else old(activeUrl)
      ensures multiset(old(config).urls[..]) == multiset(old(config.urls[..]))
      ensures multiset(newConfig.urls[..]) == multiset(old(newConfig.urls[..]))
    {
      if newConfig.chainId != chainId {
        return false;
      }
      var same := AreSortedStringArraysEquals(config.urls, newConfig.urls);
      if !same {
        activeUrl := "";
      }
      config := newConfig;
      return true;
    }
  }

  class Manager {
    var indexers: map<string, Indexer>
    /** Every indexer launched so far. */
    ghost var launched: set<Indexer>

    /** The running indexers are exactly those not shut down, one per name. */
    ghost predicate Wired()
      reads this, launched`shutdown
    {
      && (forall name :: name in indexers ==>
            indexers[name] in launched && !indexers[name].shutdown && indexers[name].chainName == name)
      && (forall x :: x in launched && !x.shutdown ==> x.chainName in indexers && indexers[x.chainName] == x)
    }

    /** Moreover each running indexer is configured for its own chain. */
    ghost predicate Valid()
      reads this, launched`shutdown, launched`config
    {
      Wired() && forall x :: x in launched ==> x.config.chainId == x.chainId
    }

    constructor ()
      ensures Valid() && indexers == map[] && launched == {}
    {
      indexers, launched := map[], {};
    }

    /** The names to give up, their indexers told to shut down. */
    method SignalShutdown(list: ChainList) returns (unused: set<string>)
      requires Wired()
      modifies launched`shutdown
      ensures unused == indexers.Keys - Enabled(list)
      ensures forall x :: x in launched ==> (x.shutdown <==> old(x.shutdown) || x.chainName in unused)
    {
      var waiting := indexers.Keys;
      unused := {};
      while waiting != {}
        invariant waiting <= indexers.Keys
        invariant unused == indexers.Keys - waiting - Enabled(list)
        invariant forall x :: x in launched ==> (x.shutdown <==> old(x.shutdown) || x.chainName in unused)
      {
        var name :| name in waiting;
        waiting := waiting - {name};
        if name in list && !list[name].disable {
          continue;
        }
        unused := unused + {name};
        indexers[name].Shutdown();
      }
    }

    /** Step 1: shut down what is no longer wanted. */
    method ShutdownUnused(list: ChainList)
      requires Valid()
      modifies this`indexers, launched`shutdown
      ensures Valid()
      ensures indexers == old(indexers) - (old(indexers).Keys - Enabled(list))
      ensures forall x :: x in launched && old(x.shutdown) ==> x.shutdown
    {
      var unused := SignalShutdown(list);
      indexers := indexers - unused;
    }

    method Launch(name: string, config: ChainConfig)
      requires Valid() && name !in indexers
      modifies this
      ensures Valid()
      ensures exists x :: fresh(x) && launched == old(launched) + {x} && indexers == old(indexers)[name := x]
                          && x.chainName == name && x.config == config && x.activeUrl == ""
    {
      var indexer := new Indexer(name, config);
      indexers := indexers[name := indexer];
      launched := launched + {indexer};
      assert fresh(indexer);
    }

    /** Running under the names of the list that had no indexer, freshly launched with the list's configuration. */
    twostate predicate LaunchedFor(list: ChainList)
      reads this, launched
    {
      && old(launched) <= launched && fresh(launched - old(launched))
      && (forall name :: name in old(indexers) ==> name in indexers && indexers[name] == old(indexers)[name])
      && (forall name :: name in indexers && name !in old(indexers) ==>
            indexers[name] in launched - old(launched))
      && (forall x :: x in launched - old(launched) ==>
            && x.chainName in indexers && indexers[x.chainName] == x
            && x.chainName in list && x.config == list[x.chainName] && x.activeUrl == "")
    }

    /** Step 2: launch what is missing. */
    method LaunchMissing(list: ChainList)
      requires Valid() && indexers.Keys <= Enabled(list)
      modifies this
      ensures Valid() && indexers.Keys == Enabled(list)
      ensures LaunchedFor(list)
    {
      var missing := Enabled(list) - indexers.Keys;
      while missing != {}
        invariant Valid() && missing !! indexers.Keys && missing + indexers.Keys == Enabled(list)
        invariant LaunchedFor(list)
        decreases missing
      {
        var name :| name in missing;
        Launch(name, list[name]);
        missing := missing - {name};
      }
    }

    /** What one reload makes of an indexer that is kept, given the URLs each array held before. */
    ghost predicate Reloaded(x: Indexer, config: ChainConfig, activeUrl: string, newConfig: ChainConfig,
                             urlsOf: UrlContents)
      reads x
    {
      && x.config == (if newConfig.chainId == x.chainId then newConfig else config)
      && x.activeUrl == if newConfig.chainId == x.chainId && !SameUrls(config, newConfig, urlsOf) then "" else activeUrl
    }

    method UpdateOne(x: Indexer, newConfig: ChainConfig, ghost urlsOf: UrlContents)
      requires x.config.urls in urlsOf && newConfig.urls in urlsOf && Hold(urlsOf)
      modifies x`config, x`activeUrl, urlsOf.Keys
      ensures Reloaded(x, old(x.config), old(x.activeUrl), newConfig, urlsOf) && Hold(urlsOf)
    {
      var _ := x.Reload(newConfig);
      forall a | a in urlsOf ensures multiset(a[..]) == urlsOf[a] {
        if a != old(x.config).urls && a != newConfig.urls {
          assert a[..] == old(a[..]);
        }
      }
    }

    ghost predicate Same(x: Indexer, was: map<Indexer, Snapshot>)
      reads x
    {
      x in was && x.config == was[x].config && x.activeUrl == was[x].activeUrl
    }

    predicate Recorded(x: Indexer, was: map<Indexer, Snapshot>, config: ChainConfig, activeUrl: string) {
      x in was && was[x] == Snapshot(config, activeUrl)
    }

    ghost predicate ReloadedTo(x: Indexer, newConfig: ChainConfig, urlsOf: UrlContents, was: map<Indexer, Snapshot>)
      reads x
    {
      x in was && Reloaded(x, was[x].config, was[x].activeUrl, newConfig, urlsOf)
    }

    /** The running indexers have been handed their configuration, except those under the names still waiting. */
    ghost predicate Updated(list: ChainList, urlsOf: UrlContents, was: map<Indexer, Snapshot>, waiting: set<string>)
      reads this, launched, indexers.Values
    {
      && (forall x :: x in launched && (x.shutdown || x.chainName in waiting) ==> Same(x, was))
      && (forall name :: name in indexers && name !in waiting ==>
          name in list && ReloadedTo(indexers[name], list[name], urlsOf, was))
    }

    /** Step 3 for one entry of the list. */
    method UpdateIfRunning(name: string, list: ChainList, ghost waiting: set<string>,
                           ghost urlsOf: UrlContents, ghost was: map<Indexer, Snapshot>)
      requires Wired() && indexers.Keys == Enabled(list) && Hold(urlsOf) && name in list && list[name].urls in urlsOf
      requires forall x :: x in was ==> was[x].config.urls in urlsOf
      requires name in waiting && Updated(list, urlsOf, was, waiting)
      modifies launched`config, launched`activeUrl, urlsOf.Keys
      ensures Hold(urlsOf) && Updated(list, urlsOf, was, waiting - {name})
    {
      if name !in indexers {
        return;
      }
      if list[name].disable {
        return;
      }
      UpdateOne(indexers[name], list[name], urlsOf);
    }

    /** Step 3: hand every running indexer its configuration. */
    method UpdateRunning(list: ChainList, ghost urlsOf: UrlContents, ghost was: map<Indexer, Snapshot>)
      requires Wired() && indexers.Keys == Enabled(list) && Hold(urlsOf)
      requires forall x :: x in launched ==> Same(x, was)
      requires forall x :: x in was ==> was[x].config.urls in urlsOf
      requires forall name :: name in list ==> list[name].urls in urlsOf
      modifies launched`config, launched`activeUrl, urlsOf.Keys
      ensures Hold(urlsOf) && Updated(list, urlsOf, was, {})
    {
      var waiting := list.Keys;
      while waiting != {}
        invariant waiting <= list.Keys && Hold(urlsOf)
        invariant Updated(list, urlsOf, was, waiting)
      {
        var name :| name in waiting;
        UpdateIfRunning(name, list, waiting, urlsOf, was);
        waiting := waiting - {name};
      }
    }

    ghost function Snapshots(): map<Indexer, Snapshot>
      reads this, launched
    {
      map x | x in launched :: Snapshot(x.config, x.activeUrl)
    }

    /** Steps 1 and 2. */
    method Reconcile(list: ChainList)
      requires Valid()
      modifies this, launched`shutdown
      ensures Valid() && indexers.Keys == Enabled(list)
      ensures old(launched) <= launched && fresh(launched - old(launched))
      ensures forall name :: name in indexers && name in old(indexers) ==> indexers[name] == old(indexers)[name]
      ensures forall name :: name in indexers && name !in old(indexers) ==> indexers[name] in launched - old(launched)
      ensures forall x :: x in launched - old(launched) ==>
                x.chainName in list && x.config == list[x.chainName] && x.activeUrl == ""
      ensures forall x :: x in old(launched) && old(x.shutdown) ==> x.shutdown
    {
      ShutdownUnused(list);
      LaunchMissing(list);
    }

    /** Steps 1 and 2, remembering how every indexer is configured before step 3. */
    method Prepare(list: ChainList, ghost urlsOf: UrlContents) returns (ghost was: map<Indexer, Snapshot>)
      requires Valid()
      requires forall x :: x in launched ==> x.config.urls in urlsOf
      requires forall name :: name in list ==> list[name].urls in urlsOf
      modifies this, launched`shutdown
      ensures Valid() && indexers.Keys == Enabled(list)
      ensures old(launched) <= launched && fresh(launched - old(launched))
      ensures forall name :: name in indexers && name in old(indexers) ==> indexers[name] == old(indexers)[name]
      ensures forall name :: name in indexers && name !in old(indexers) ==>
                indexers[name] in launched - old(launched) && Recorded(indexers[name], was, list[name], "")
      ensures forall x :: x in old(launched) && old(x.shutdown) ==> x.shutdown
      ensures forall x :: x in launched ==> Same(x, was)
      ensures forall x :: x in was ==> was[x].config.urls in urlsOf
      ensures forall x :: x in old(launched) ==> Recorded(x, was, old(x.config), old(x.activeUrl))
    {
      Reconcile(list);
      was := Snapshots();
    }

    /** Running under exactly the enabled names; a name that was running keeps its object and is handed the new
        configuration; nothing that was shut down comes back. */
    method Reload(list: ChainList, ghost urlsOf: UrlContents)
      requires Valid() && Hold(urlsOf)
      requires forall x :: x in launched ==> x.config.urls in urlsOf
      requires forall name :: name in list ==> list[name].urls in urlsOf
      modifies this, launched, urlsOf.Keys
      ensures Valid() && Hold(urlsOf) && indexers.Keys == Enabled(list)
      ensures forall name :: name in indexers <==> name in list && !list[name].disable
      ensures old(launched) <= launched && fresh(launched - old(launched))
      ensures forall name :: name in indexers && name in old(indexers) ==>
                && indexers[name] == old(indexers)[name]
                && Reloaded(indexers[name], old(indexers[name].config), old(indexers[name].activeUrl), list[name],
                            urlsOf)
      ensures forall name :: name in indexers && name !in old(indexers) ==>
                indexers[name] in launched - old(launched) && indexers[name].config == list[name]
                    && indexers[name].activeUrl == ""
      ensures forall x :: x in old(launched) && old(x.shutdown) ==> x.shutdown
      ensures forall x :: x in launched ==> x.config.urls in urlsOf
    {
      ghost var was := Prepare(list, urlsOf);
      UpdateRunning(list, urlsOf, was);
    }

    /** The indexers that have been shut down so far. */
    ghost function Retired(): set<Indexer>
      reads this, launched`shutdown
    {
      set x | x in launched && x.shutdown
    }

    /** Any sequence of reloads, each on record: what ran and what had been shut down before the first and after
        each. In the end every running indexer has the configuration of the last list, unless that is for another
        chain. */
    method ReloadAll(lists: seq<ChainList>, ghost urlsOf: UrlContents)
      returns (ghost running: seq<map<string, Indexer>>, ghost retired: seq<set<Indexer>>)
      requires Valid() && Hold(urlsOf)
      requires forall x :: x in launched ==> x.config.urls in urlsOf
      requires forall i, name :: 0 <= i < |lists| && name in lists[i] ==> lists[i][name].urls in urlsOf
      modifies this, launched, urlsOf.Keys
      ensures Valid() && Hold(urlsOf) && old(launched) <= launched && fresh(launched - old(launched))
      ensures IsRecord(lists, |lists|, running, retired)
      ensures running[0] == old(indexers) && retired[0] == old(Retired())
      ensures running[|lists|] == indexers && retired[|lists|] == Retired()
      ensures lists != [] ==>
                forall name :: name in indexers ==>
                  var last := lists[|lists| - 1];
                  name in last && (indexers[name].config == last[name] || last[name].chainId != indexers[name].chainId)
    {
      running, retired := [indexers], [Retired()];
      for i := 0 to |lists|
        invariant Valid() && Hold(urlsOf) && old(launched) <= launched && fresh(launched - old(launched))
        invariant forall x :: x in launched ==> x.config.urls in urlsOf
        invariant true == IsRecord(lists, i, running, retired)
        invariant running[0] == old(indexers) && retired[0] == old(Retired())
        invariant running[i] == indexers && retired[i] == Retired()
        invariant i > 0 ==> forall name :: name in indexers ==>
                    name in lists[i - 1]
                    && (indexers[name].config == lists[i - 1][name]
                        || lists[i - 1][name].chainId != indexers[name].chainId)
      {
        Reload(lists[i], urlsOf);
        OneMoreReload(lists, i, running, retired, indexers, Retired());
        running, retired := running + [indexers], retired + [Retired()];
      }
    }
  }

  /** After n reloads: the names of each list ran, names running before and after kept their indexer, what stopped
      running was shut down, nothing shut down was running, and nothing shut down was ever revived. */
  ghost predicate IsRecord(lists: seq<ChainList>, n: nat, running: seq<map<string, Indexer>>,
                           retired: seq<set<Indexer>>)
  {
    && n <= |lists| && |running| == |retired| == n + 1
    && (forall i :: 0 <= i < n ==> running[i + 1].Keys == Enabled(lists[i]))
    && (forall i :: 0 <= i < n ==> Follows(running[i], running[i + 1], retired[i], retired[i + 1]))
    && (forall i :: 0 <= i <= n ==> NoneRetired(running[i], retired[i]))
  }

  ghost predicate Follows(before: map<string, Indexer>, after: map<string, Indexer>, retired: set<Indexer>,
                          more: set<Indexer>) {
    && retired <= more
    && forall name :: name in before ==> if name in after then after[name] == before[name] else before[name] in more
  }

  ghost predicate NoneRetired(running: map<string, Indexer>, retired: set<Indexer>) {
    forall name :: name in running ==> running[name] !in retired
  }

  lemma OneMoreReload(lists: seq<ChainList>, n: nat, running: seq<map<string, Indexer>>, retired: seq<set<Indexer>>,
                      now: map<string, Indexer>, more: set<Indexer>)
    requires n < |lists| && IsRecord(lists, n, running, retired)
    requires now.Keys == Enabled(lists[n]) && Follows(running[n], now, retired[n], more) && NoneRetired(now, more)
    ensures IsRecord(lists, n + 1, running + [now], retired + [more])
  {
  }

  /** An indexer that ran once and then did not is among the retired from then on, and never runs again. */
  lemma {:induction false} NeverReturns(lists: seq<ChainList>, n: nat, running: seq<map<string, Indexer>>,
                                        retired: seq<set<Indexer>>, i: nat, j: nat, name: string)
    requires IsRecord(lists, n, running, retired) && i < j <= n
    requires name in running[i] && name !in running[i + 1]
    ensures running[i][name] in retired[j] && forall other :: other in running[j] ==>
      running[j][other] != running[i][name]
  {
    if i + 1 < j {
      NeverReturns(lists, n, running, retired, i, j - 1, name);
      assert Follows(running[j - 1], running[j], retired[j - 1], retired[j]);
    } else {
      assert Follows(running[i], running[i + 1], retired[i], retired[i + 1]);
    }
    assert NoneRetired(running[j], retired[j]);
  }

  /** A name that every list enables keeps its indexer throughout. */
  lemma {:induction false} KeptThroughout(lists: seq<ChainList>, n: nat, running: seq<map<string, Indexer>>,
                                          retired: seq<set<Indexer>>, name: string)
    requires IsRecord(lists, n, running, retired) && name in running[0]
    requires forall i :: 0 <= i < n ==> name in Enabled(lists[i])
    ensures name in running[n] && running[n][name] == running[0][name]
  {
    if n > 0 {
      KeptThroughout(lists, n - 1, running[..n], retired[..n], name);
      assert Follows(running[n - 1], running[n], retired[n - 1], retired[n]);
      assert running[n].Keys == Enabled(lists[n - 1]);
    }
  }
}
