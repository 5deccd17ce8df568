/** What the catalog blocks, shows and reports, told from the listings alone: the
    names and hashes the servers gave, in order. */
module CatalogHistory {
  import opened Text
  import Lists
  import opened Catalog
  import opened CatalogRuns

  // ----- the terms -----

  /** The hash a listed tool gives `key`, if it is that tool. */
  function HashFor(c: Config, server: nat, tool: Tool, key: Key): seq<string> {
    if tool.name == Some(key.tool) && server == key.server then [c.hash(tool)] else []
  }

  function ListingHashes(c: Config, server: nat, tools: seq<Tool>, key: Key): seq<string> {
    if tools == [] then []
    else ListingHashes(c, server, tools[..|tools| - 1], key) + HashFor(c, server, tools[|tools| - 1], key)
  }

  /** Every hash a run of listings gives `key`, in order. */
  function RunHashes(c: Config, run: seq<Listing>, key: Key): seq<string> {
    if run == [] then []
    else
      var n := |run| - 1;
      RunHashes(c, run[..n], key) + ListingHashes(c, run[n].server, run[n].tools, key)
  }

  /** One of the hashes is not the pinned one or, without a lock, not the first one. */
  predicate HasDrift(c: Config, key: Key, hashes: seq<string>)
    requires key.server < |c.servers|
  {
    exists i :: 0 <= i < |hashes| &&
      if c.lock.Some? then !IsPinned(c.lock.value, c.servers[key.server], key.tool, hashes[i])
      else hashes[i] != hashes[0]
  }

  predicate IsPinned(lock: ToolsLock, server: string, tool: string, h: string) {
    server in lock && tool in lock[server] && lock[server][tool] == h
  }

  /** Its name was first listed by another server. */
  ghost predicate Clashes(c: Config, namespaced: set<string>, keys: seq<Key>, key: Key)
    requires key.server < |c.servers|
  {
    c.routed && exists first ::
      IsFirst(c, namespaced, keys, AgentName(c, namespaced, key.server, key.tool), first) && first.server != key.server
  }

  /** The listings so far: the keys listed, and the hashes given to one of them. */
  ghost predicate BlocksRight(c: Config, st: State, keys: seq<Key>, key: Key, hashes: seq<string>)
    requires key.server < |c.servers|
  {
    var clashes := Clashes(c, st.namespaced, keys, key);
    && (hashes != [] ==> key in keys)
    && (key in st.blocked <==> !clashes && HasDrift(c, key, hashes))
    && (c.lock.None? ==>
          && (key in st.baseline <==> !clashes && hashes != [])
          && (key in st.baseline ==> st.baseline[key] == hashes[0]))
  }

  ghost predicate Right(c: Config, st: State, keys: seq<Key>, key: Key, hashes: seq<string>)
    requires key.server < |c.servers|
  {
    BlocksRight(c, st, keys, key, hashes) && (c.routed ==> RoutesFirst(c, st, keys))
  }

  // ----- one listed tool -----

  lemma DriftGrows(c: Config, key: Key, hashes: seq<string>, h: string)
    requires key.server < |c.servers|
    ensures HasDrift(c, key, hashes + [h]) <==>
            HasDrift(c, key, hashes)
            || (if c.lock.Some? then !IsPinned(c.lock.value, c.servers[key.server], key.tool, h)
                else hashes != [] && h != hashes[0])
  {
    var more := hashes + [h];
    assert forall i :: 0 <= i < |hashes| ==> more[i] == hashes[i];
    assert more[|hashes|] == h;
    hide IsPinned;
  }

  lemma ClashIs(c: Config, st: State, keys: seq<Key>, key: Key)
    requires key.server < |c.servers| && c.routed && RoutesFirst(c, st, keys)
    ensures var agent := AgentName(c, st.namespaced, key.server, key.tool);
            Clashes(c, st.namespaced, keys, key) <==> agent in st.exposed && st.exposed[agent].server != key.server
  {
    hide IsFirst, IsListed;
    var agent := AgentName(c, st.namespaced, key.server, key.tool);
    forall first | IsFirst(c, st.namespaced, keys, agent, first)
      ensures agent in st.exposed && first == st.exposed[agent]
    {
      FirstIsListed(c, st.namespaced, keys, agent, first);
      FirstUnique(c, st.namespaced, keys, agent, first, if agent in st.exposed then st.exposed[agent] else first);
    }
  }

  /** What one listed tool does to another key: nothing. */
  lemma OtherKey(c: Config, s: Seen, server: nat, tool: Tool, key: Key)
    requires server < |c.servers| && (tool.name != Some(key.tool) || server != key.server)
    ensures var t := ObserveOne(c, s, server, tool).st;
            && (key in t.blocked <==> key in s.st.blocked) && (key in t.baseline <==> key in s.st.baseline)
            && (key in t.baseline ==> t.baseline[key] == s.st.baseline[key])
  {
    hide Drifted, AgentName;
  }

  /** What one listed tool does to its own key. */
  lemma OwnKey(c: Config, s: Seen, server: nat, tool: Tool)
    requires server < |c.servers| && tool.name.Some?
    ensures var key, h := Key(server, tool.name.value), c.hash(tool);
            var agent := AgentName(c, s.st.namespaced, server, key.tool);
            var clashes := c.routed && agent in s.st.exposed && s.st.exposed[agent].server != server;
            var t := ObserveOne(c, s, server, tool).st;
            if clashes then t == s.st
            else
              && (key in t.blocked <==> key in s.st.blocked || Drifted(c, s.st, key, tool))
              && t.baseline == (if c.lock.None? && key !in s.st.blocked && key !in s.st.baseline
                                then s.st.baseline[key := h] else s.st.baseline)
  {
    hide AgentName;
  }

  lemma ListedExposed(c: Config, st: State, keys: seq<Key>, key: Key)
    requires c.routed && key.server < |c.servers| && RoutesFirst(c, st, keys) && key in keys
    ensures AgentName(c, st.namespaced, key.server, key.tool) in st.exposed
  {
    hide IsFirst, AgentName;
    assert IsUnder(c, st.namespaced, key, AgentName(c, st.namespaced, key.server, key.tool));
  }

  /** A name that was listed keeps its server, so its clash is settled. */
  lemma ClashSettled(c: Config, s: Seen, server: nat, tool: Tool, keys: seq<Key>, key: Key)
    requires server < |c.servers| && key.server < |c.servers|
    requires c.routed ==> RoutesFirst(c, s.st, keys)
    ensures var t, more := ObserveOne(c, s, server, tool).st, keys + KeyOf(server, tool);
            && t.namespaced == s.st.namespaced && (c.routed ==> RoutesFirst(c, t, more))
            && (key in keys ==> (Clashes(c, t.namespaced, more, key) <==> Clashes(c, s.st.namespaced, keys, key)))
            && (tool.name == Some(key.tool) && server == key.server ==>
                  (Clashes(c, t.namespaced, more, key) <==> OtherServes(c, s.st, key)))
  {
    hide ObserveOne, Clashes, RoutesFirst, AgentName, KeyOf;
    OneExtends(c, s, server, tool);
    SameNamespaced(s.st, ObserveOne(c, s, server, tool).st);
    if c.routed {
      var t, more := ObserveOne(c, s, server, tool).st, keys + KeyOf(server, tool);
      OneFirst(c, s, server, tool, keys);
      OneExposes(c, s, server, tool);
      ClashIs(c, s.st, keys, key);
      ClashIs(c, t, more, key);
      if key in keys {
        ListedExposed(c, s.st, keys, key);
      }
    } else {
      NoClashUnrouted(c, s.st.namespaced, keys, key);
      NoClashUnrouted(c, s.st.namespaced, keys + KeyOf(server, tool), key);
    }
  }

  /** Another server serves the name that the key goes by. */
  predicate OtherServes(c: Config, st: State, key: Key)
    requires key.server < |c.servers|
  {
    var agent := AgentName(c, st.namespaced, key.server, key.tool);
    c.routed && agent in st.exposed && st.exposed[agent].server != key.server
  }

  lemma NoClashUnrouted(c: Config, namespaced: set<string>, keys: seq<Key>, key: Key)
    requires !c.routed && key.server < |c.servers|
    ensures !Clashes(c, namespaced, keys, key)
  {
  }

  lemma ClashBefore(c: Config, st: State, keys: seq<Key>, key: Key)
    requires key.server < |c.servers| && (c.routed ==> RoutesFirst(c, st, keys))
    ensures Clashes(c, st.namespaced, keys, key) <==> OtherServes(c, st, key)
  {
    hide Clashes, RoutesFirst, AgentName;
    if c.routed {
      ClashIs(c, st, keys, key);
    } else {
      NoClashUnrouted(c, st.namespaced, keys, key);
    }
  }

  lemma OneRight(c: Config, s: Seen, server: nat, tool: Tool, keys: seq<Key>, key: Key, hashes: seq<string>)
    requires server < |c.servers| && key.server < |c.servers| && Right(c, s.st, keys, key, hashes)
    ensures Right(c, ObserveOne(c, s, server, tool).st, keys + KeyOf(server, tool), key,
                  hashes + HashFor(c, server, tool, key))
  {
    hide ObserveOne, RoutesFirst, AgentName, Clashes, HasDrift, OtherServes;
    ClashSettled(c, s, server, tool, keys, key);
    if tool.name == Some(key.tool) && server == key.server {
      OwnRight(c, s, tool, keys, key, hashes);
    } else {
      OtherKey(c, s, server, tool, key);
      DriftNeedsHash(c, key);
      assert hashes + [] == hashes;
    }
  }

  lemma OwnRight(c: Config, s: Seen, tool: Tool, keys: seq<Key>, key: Key, hashes: seq<string>)
    requires key.server < |c.servers| && Right(c, s.st, keys, key, hashes) && tool.name == Some(key.tool)
    ensures BlocksRight(c, ObserveOne(c, s, key.server, tool).st, keys + KeyOf(key.server, tool), key,
                        hashes + [c.hash(tool)])
  {
    hide ObserveOne, RoutesFirst, AgentName, Clashes, HasDrift;
    ClashSettled(c, s, key.server, tool, keys, key);
    ClashBefore(c, s.st, keys, key);
    OwnKey(c, s, key.server, tool);
    DriftGrows(c, key, hashes, c.hash(tool));
    DriftNeedsHash(c, key);
  }

  lemma DriftNeedsHash(c: Config, key: Key)
    requires key.server < |c.servers|
    ensures !HasDrift(c, key, [])
  {
  }

  // ----- whole runs -----

  lemma ListingHashesNext(c: Config, server: nat, tools: seq<Tool>, n: nat, key: Key)
    requires n < |tools|
    ensures ListingHashes(c, server, tools[..n + 1], key)
            == ListingHashes(c, server, tools[..n], key) + HashFor(c, server, tools[n], key)
  {
    assert tools[..n + 1][..n] == tools[..n];
  }

  lemma NoListingHashes(c: Config, server: nat, tools: seq<Tool>, key: Key, hashes: seq<string>)
    ensures hashes + ListingHashes(c, server, tools[..0], key) == hashes
  {
  }

  lemma {:induction false} ListingRight(c: Config, st: State, server: nat, tools: seq<Tool>, n: nat, keys: seq<Key>,
                                        key: Key, hashes: seq<string>)
    requires server < |c.servers| && key.server < |c.servers| && n <= |tools| && Right(c, st, keys, key, hashes)
    ensures Right(c, ObserveTools(c, st, server, tools[..n]).st, keys + ListingKeys(server, tools[..n]), key,
                  hashes + ListingHashes(c, server, tools[..n], key))
  {
    hide *;
    ObserveNone(c, st, server, tools);
    NoListingKeys(server, tools, keys);
    NoListingHashes(c, server, tools, key, hashes);
    if n > 0 {
      ListingRight(c, st, server, tools, n - 1, keys, key, hashes);
      ObserveNext(c, st, server, tools, n - 1);
      ListingKeysNext(server, tools, n - 1);
      ListingHashesNext(c, server, tools, n - 1, key);
      OneRight(c, ObserveTools(c, st, server, tools[..n - 1]), server, tools[n - 1],
               keys + ListingKeys(server, tools[..n - 1]), key,
               hashes + ListingHashes(c, server, tools[..n - 1], key));
      Lists.ConcatAssociates(keys, ListingKeys(server, tools[..n - 1]), KeyOf(server, tools[n - 1]));
      Lists.ConcatAssociates(hashes, ListingHashes(c, server, tools[..n - 1], key),
                             HashFor(c, server, tools[n - 1], key));
    }
  }

  lemma {:induction false} RunRight(c: Config, namespaced: set<string>, run: seq<Listing>, key: Key)
    requires InServers(c, run) && key.server < |c.servers|
    ensures Right(c, After(c, Start(namespaced), run).st, RunKeys(run), key, RunHashes(c, run, key))
  {
    hide Right, ObserveTools, ListingKeys, ListingHashes;
    if run == [] {
      StartRight(c, namespaced, key);
    } else {
      var n := |run| - 1;
      RunRight(c, namespaced, run[..n], key);
      assert run[n].tools[..|run[n].tools|] == run[n].tools;
      ListingRight(c, After(c, Start(namespaced), run[..n]).st, run[n].server, run[n].tools, |run[n].tools|,
                   RunKeys(run[..n]), key, RunHashes(c, run[..n], key));
    }
  }

  lemma StartRight(c: Config, namespaced: set<string>, key: Key)
    requires key.server < |c.servers|
    ensures Right(c, Start(namespaced).st, [], key, [])
  {
    StartFirst(c, namespaced);
    DriftNeedsHash(c, key);
    hide RoutesFirst, HasDrift;
  }

  /** After any run a tool is blocked exactly when its name is not another server's and
      some listing gave it a hash other than its pin or, without a lock, other than the
      first hash it was given. */
  lemma BlockedExactly(c: Config, namespaced: set<string>, run: seq<Listing>, key: Key)
    requires InServers(c, run) && key.server < |c.servers|
    ensures key in After(c, Start(namespaced), run).st.blocked <==>
            !Clashes(c, namespaced, RunKeys(run), key) && HasDrift(c, key, RunHashes(c, run, key))
  {
    hide After, RunHashes, Clashes, HasDrift, RunKeys, Extends, RoutesOk, RoutesFirst;
    RunRight(c, namespaced, run, key);
    RunKeeps(c, Start(namespaced), run);
    SameNamespaced(Start(namespaced).st, After(c, Start(namespaced), run).st);
  }

  // ----- what one listing shows and reports -----

  /** Tool `i` of a listing, told from the state after it. */
  lemma OneOutcome(c: Config, s: Seen, server: nat, tool: Tool)
    requires server < |c.servers|
    ensures var t := ObserveOne(c, s, server, tool);
            if tool.name.None? then t == s
            else
              var key, agent := Key(server, tool.name.value), AgentName(c, s.st.namespaced, server, tool.name.value);
              && t.clashes == (if OtherServes(c, s.st, key) then s.clashes + [agent] else s.clashes)
              && t.visible == (if OtherServes(c, s.st, key) || key in t.st.blocked then s.visible
                               else s.visible + [tool.(name := Some(agent))])
              && t.drifts == (if key in t.st.blocked && key !in s.st.blocked
                              then s.drifts + [Drift(c.servers[server], agent)] else s.drifts)
  {
    hide Drifted, AgentName;
  }

  /** The run, and then the first `n` tools of a listing. */
  function Upto(run: seq<Listing>, server: nat, tools: seq<Tool>, n: nat): seq<Listing>
    requires n <= |tools|
  {
    run + [Listing(server, tools[..n])]
  }

  /** A listed tool whose name is not another server's is shown, under the name the agent
      knows it by, exactly when no hash it was given so far, this one included, is wrong;
      the first wrong one is reported as a drift, and nothing else is. Under another
      server's name it is a clash, and neither shown nor a drift. */
  lemma ListedExactly(c: Config, namespaced: set<string>, run: seq<Listing>, server: nat, tools: seq<Tool>, i: nat)
    requires InServers(c, run) && server < |c.servers| && i < |tools|
    ensures var st := After(c, Start(namespaced), run).st;
            var s, t := ObserveTools(c, st, server, tools[..i]), ObserveTools(c, st, server, tools[..i + 1]);
            if tools[i].name.None? then t == s
            else
              var key, agent := Key(server, tools[i].name.value), AgentName(c, namespaced, server, tools[i].name.value);
              var before, now := Upto(run, server, tools, i), Upto(run, server, tools, i + 1);
              var clashes := Clashes(c, namespaced, RunKeys(now), key);
              var wrong := HasDrift(c, key, RunHashes(c, now, key));
              var wrongBefore := HasDrift(c, key, RunHashes(c, before, key));
              && t.clashes == (if clashes then s.clashes + [agent] else s.clashes)
              && t.visible == (if clashes || wrong then s.visible else s.visible + [tools[i].(name := Some(agent))])
              && t.drifts == (if !clashes && wrong && !wrongBefore then s.drifts + [Drift(c.servers[server], agent)]
                              else s.drifts)
  {
    hide *;
    var st := After(c, Start(namespaced), run).st;
    var s, t := ObserveTools(c, st, server, tools[..i]), ObserveTools(c, st, server, tools[..i + 1]);
    ObserveNext(c, st, server, tools, i);
    OneOutcome(c, s, server, tools[i]);
    if tools[i].name.Some? {
      var key := Key(server, tools[i].name.value);
      UptoAfter(c, namespaced, run, server, tools, i);
      UptoAfter(c, namespaced, run, server, tools, i + 1);
      var before, now := Upto(run, server, tools, i), Upto(run, server, tools, i + 1);
      BlockedExactly(c, namespaced, before, key);
      BlockedExactly(c, namespaced, now, key);
      SettledNow(c, namespaced, run, server, tools, i);
    }
  }

  lemma UptoAfter(c: Config, namespaced: set<string>, run: seq<Listing>, server: nat, tools: seq<Tool>, n: nat)
    requires InServers(c, run) && server < |c.servers| && n <= |tools|
    ensures InServers(c, Upto(run, server, tools, n))
    ensures After(c, Start(namespaced), Upto(run, server, tools, n)).st
            == ObserveTools(c, After(c, Start(namespaced), run).st, server, tools[..n]).st
    ensures ObserveTools(c, After(c, Start(namespaced), run).st, server, tools[..n]).st.namespaced == namespaced
  {
    hide After, ObserveTools, Extends, RoutesOk;
    ThenListing(c, Start(namespaced), run, Listing(server, tools[..n]));
    RunKeeps(c, Start(namespaced), Upto(run, server, tools, n));
    SameNamespaced(Start(namespaced).st, After(c, Start(namespaced), Upto(run, server, tools, n)).st);
  }

  /** Whether the tool clashes is settled by the listings up to it. */
  lemma SettledNow(c: Config, namespaced: set<string>, run: seq<Listing>, server: nat, tools: seq<Tool>, i: nat)
    requires InServers(c, run) && server < |c.servers| && i < |tools| && tools[i].name.Some?
    ensures var s := ObserveTools(c, After(c, Start(namespaced), run).st, server, tools[..i]);
            var key := Key(server, tools[i].name.value);
            && (OtherServes(c, s.st, key) <==> Clashes(c, namespaced, RunKeys(Upto(run, server, tools, i + 1)), key))
            && (OtherServes(c, s.st, key) <==> Clashes(c, namespaced, RunKeys(Upto(run, server, tools, i)), key))
  {
    hide *;
    var s := ObserveTools(c, After(c, Start(namespaced), run).st, server, tools[..i]);
    var key, before := Key(server, tools[i].name.value), Upto(run, server, tools, i);
    UptoAfter(c, namespaced, run, server, tools, i);
    UptoKeys(run, server, tools, i);
    if c.routed {
      RunFirst(c, namespaced, before);
    }
    ClashSettled(c, s, server, tools[i], RunKeys(before), key);
    ClashBefore(c, s.st, RunKeys(before), key);
  }

  lemma UptoKeys(run: seq<Listing>, server: nat, tools: seq<Tool>, i: nat)
    requires i < |tools|
    ensures RunKeys(Upto(run, server, tools, i + 1)) == RunKeys(Upto(run, server, tools, i)) + KeyOf(server, tools[i])
  {
    hide KeyOf;
    var a, b := Upto(run, server, tools, i), Upto(run, server, tools, i + 1);
    assert a[..|run|] == run && b[..|run|] == run;
    ListingKeysNext(server, tools, i);
    Lists.ConcatAssociates(RunKeys(run), ListingKeys(server, tools[..i]), KeyOf(server, tools[i]));
  }
}
