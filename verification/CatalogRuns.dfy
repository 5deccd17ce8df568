/** The catalog over any run of listings: what is blocked stays blocked, routes do
    not move, drifts are reported once each, and shown tools are the right ones. */
module CatalogRuns {
  import opened Text
  import Lists
  import opened Catalog

  datatype Listing = Listing(server: nat, tools: seq<Tool>)

  ghost predicate InServers(c: Config, run: seq<Listing>) {
    forall i :: 0 <= i < |run| ==> run[i].server < |c.servers|
  }

  /** The state after a run of listings, and how many drifts were reported. */
  datatype Outcome = Outcome(st: State, drifts: nat)

  ghost function After(c: Config, o: Outcome, run: seq<Listing>): Outcome
    requires InServers(c, run)
  {
    if run == [] then o
    else
      var n := |run| - 1;
      var before := After(c, o, run[..n]);
      var seen := ObserveTools(c, before.st, run[n].server, run[n].tools);
      Outcome(seen.st, before.drifts + |seen.drifts|)
  }

  function Start(namespaced: set<string>): Outcome {
    Outcome(State(map[], {}, map[], namespaced), 0)
  }

  // ----- what every listed tool keeps -----

  predicate Keeps(s: map<Key, string>, t: map<Key, string>) {
    forall k :: k in s ==> k in t && t[k] == s[k]
  }

  /** Blocked stays blocked; routes and first-seen hashes never change. */
  predicate Extends(s: State, t: State) {
    && s.blocked <= t.blocked
    && (forall a :: a in s.exposed ==> a in t.exposed && t.exposed[a] == s.exposed[a])
    && Keeps(s.baseline, t.baseline)
    && s.namespaced == t.namespaced
  }

  /** A route leads to a server under the name that server's tool is exposed as. */
  predicate RouteOk(c: Config, st: State, agent: string)
    requires agent in st.exposed
  {
    var key := st.exposed[agent];
    key.server < |c.servers| && AgentName(c, st.namespaced, key.server, key.tool) == agent
  }

  ghost predicate RoutesOk(c: Config, st: State) {
    forall a :: a in st.exposed ==> RouteOk(c, st, a)
  }

  lemma OneKeeps(c: Config, s: Seen, server: nat, tool: Tool)
    requires server < |c.servers|
    ensures var t := ObserveOne(c, s, server, tool);
            Extends(s.st, t.st)
            && |t.drifts| - |s.drifts| == |t.st.blocked| - |s.st.blocked|
            && (RoutesOk(c, s.st) ==> RoutesOk(c, t.st))
  {
    hide *;
    OneExtends(c, s, server, tool);
    OneBlocks(c, s, server, tool);
    OneRoutes(c, s, server, tool);
  }

  lemma OneExtends(c: Config, s: Seen, server: nat, tool: Tool)
    requires server < |c.servers|
    ensures Extends(s.st, ObserveOne(c, s, server, tool).st)
  {
    hide Drifted, AgentName, Exposing;
    if tool.name.Some? {
      var key := Key(server, tool.name.value);
      var agent := AgentName(c, s.st.namespaced, server, key.tool);
      ExposingExtends(c, s.st, agent, key);
    }
  }

  lemma ExposingExtends(c: Config, st: State, agent: string, key: Key)
    ensures var t := Exposing(c, st, agent, key);
            && Extends(st, t) && t.blocked == st.blocked && t.baseline == st.baseline && t.namespaced == st.namespaced
  {
  }

  lemma OneBlocks(c: Config, s: Seen, server: nat, tool: Tool)
    requires server < |c.servers|
    ensures var t := ObserveOne(c, s, server, tool);
            |t.drifts| - |s.drifts| == |t.st.blocked| - |s.st.blocked|
  {
    hide Drifted, AgentName;
    var t := ObserveOne(c, s, server, tool);
    if tool.name.Some? && t.st.blocked != s.st.blocked {
      assert Key(server, tool.name.value) !in s.st.blocked;
    }
  }

  lemma OneRoutes(c: Config, s: Seen, server: nat, tool: Tool)
    requires server < |c.servers|
    ensures RoutesOk(c, s.st) ==> RoutesOk(c, ObserveOne(c, s, server, tool).st)
  {
    hide Drifted, AgentName;
    var t := ObserveOne(c, s, server, tool);
    forall a | RoutesOk(c, s.st) && a in t.st.exposed ensures RouteOk(c, t.st, a) {
      if a in s.st.exposed {
        assert RouteOk(c, s.st, a);
      }
    }
  }

  lemma ExtendsTransitive(s: State, t: State, u: State)
    requires Extends(s, t) && Extends(t, u)
    ensures Extends(s, u)
  {
  }

  lemma ObserveNext(c: Config, st: State, server: nat, tools: seq<Tool>, i: nat)
    requires server < |c.servers| && i < |tools|
    ensures ObserveTools(c, st, server, tools[..i + 1])
            == ObserveOne(c, ObserveTools(c, st, server, tools[..i]), server, tools[i])
  {
    hide ObserveOne;
    assert tools[..i + 1][..i] == tools[..i];
  }

  lemma ObserveNone(c: Config, st: State, server: nat, tools: seq<Tool>)
    requires server < |c.servers|
    ensures ObserveTools(c, st, server, tools[..0]) == Seen(st, [], [], [])
    ensures Extends(st, st)
  {
    hide ObserveOne;
  }

  /** From the `i`-th to the `j`-th tool of a listing. */
  lemma {:induction false} SpanKeeps(c: Config, st: State, server: nat, tools: seq<Tool>, i: nat, j: nat)
    requires server < |c.servers| && i <= j <= |tools|
    ensures var s := ObserveTools(c, st, server, tools[..i]);
            var t := ObserveTools(c, st, server, tools[..j]);
            Extends(s.st, t.st) && |t.drifts| - |s.drifts| == |t.st.blocked| - |s.st.blocked|
            && (RoutesOk(c, s.st) ==> RoutesOk(c, t.st))
  {
    hide *;
    if i == j {
      ExtendsItself(ObserveTools(c, st, server, tools[..i]).st);
    } else {
      SpanKeeps(c, st, server, tools, i, j - 1);
      ObserveNext(c, st, server, tools, j - 1);
      OneKeeps(c, ObserveTools(c, st, server, tools[..j - 1]), server, tools[j - 1]);
      ExtendsTransitive(ObserveTools(c, st, server, tools[..i]).st, ObserveTools(c, st, server, tools[..j - 1]).st,
                        ObserveTools(c, st, server, tools[..j]).st);
    }
  }

  lemma ExtendsItself(st: State)
    ensures Extends(st, st)
  {
  }

  lemma ListingKeeps(c: Config, st: State, server: nat, tools: seq<Tool>)
    requires server < |c.servers|
    ensures var t := ObserveTools(c, st, server, tools);
            Extends(st, t.st) && |t.drifts| == |t.st.blocked| - |st.blocked| && (RoutesOk(c, st) ==> RoutesOk(c, t.st))
  {
    hide Extends, RoutesOk, ObserveTools;
    assert tools[..|tools|] == tools;
    ObserveNone(c, st, server, tools);
    SpanKeeps(c, st, server, tools, 0, |tools|);
  }

  /** Over any run: blocked tools stay blocked, routes and first-seen hashes stay
      what they are, and as many drifts are reported as tools become blocked. */
  lemma {:induction false} RunKeeps(c: Config, o: Outcome, run: seq<Listing>)
    requires InServers(c, run)
    ensures var t := After(c, o, run);
            Extends(o.st, t.st) && t.drifts - o.drifts == |t.st.blocked| - |o.st.blocked|
            && (RoutesOk(c, o.st) ==> RoutesOk(c, t.st))
  {
    hide Extends, RoutesOk, ObserveTools;
    if run == [] {
      ExtendsItself(o.st);
    } else {
      var n := |run| - 1;
      var before := After(c, o, run[..n]);
      RunKeeps(c, o, run[..n]);
      ListingKeeps(c, before.st, run[n].server, run[n].tools);
      ExtendsTransitive(o.st, before.st, After(c, o, run).st);
    }
  }

  /** From start-up on, the drifts reported are as many as the tools blocked, and
      every route leads to the name it was exposed for. */
  lemma DriftsAreBlocked(c: Config, namespaced: set<string>, run: seq<Listing>)
    requires InServers(c, run)
    ensures var t := After(c, Start(namespaced), run);
            t.drifts == |t.st.blocked| && RoutesOk(c, t.st)
  {
    hide Extends;
    RunKeeps(c, Start(namespaced), run);
  }

  /** A call is refused as unavailable exactly when nothing serves the name. */
  lemma RefusedWithoutRoute(c: Config, st: State, tool: string)
    requires c.routed
    ensures Refuse(c, st, tool) == Some(ToolUnavailable) <==> Route(c, st, tool).None?
    ensures Route(c, st, tool).Some? ==>
              (Refuse(c, st, tool).Some? <==> Route(c, st, tool).value in st.blocked)
  {
  }

  // ----- what is shown -----

  /** The definition is the pinned one, or the first one seen. */
  predicate Matches(c: Config, st: State, key: Key, tool: Tool)
    requires key.server < |c.servers|
  {
    if c.lock.Some? then HashOf(c.lock.value, c.servers[key.server], key.tool) == Some(c.hash(tool))
    else key in st.baseline && st.baseline[key] == c.hash(tool)
  }

  /** `v` is how `tool` of `server` is shown: it matches what it should be, and its
      name is served by this server. */
  ghost predicate ShownAs(c: Config, st: State, server: nat, tool: Tool, v: Tool)
    requires server < |c.servers|
  {
    tool.name.Some? &&
    var agent := AgentName(c, st.namespaced, server, tool.name.value);
    && v == tool.(name := Some(agent))
    && Matches(c, st, Key(server, tool.name.value), tool)
    && (c.routed ==> agent in st.exposed && st.exposed[agent].server == server)
  }

  lemma OneShown(c: Config, s: Seen, server: nat, tool: Tool)
    requires server < |c.servers|
    ensures var t := ObserveOne(c, s, server, tool);
            t.visible == s.visible ||
            (tool.name.Some? && |t.visible| == |s.visible| + 1 && s.visible <= t.visible
             && ShownAs(c, t.st, server, tool, t.visible[|s.visible|])
             && Key(server, tool.name.value) !in t.st.blocked)
  {
  }

  lemma ShownStays(c: Config, s: State, t: State, server: nat, tool: Tool, v: Tool)
    requires server < |c.servers| && Extends(s, t) && ShownAs(c, s, server, tool, v)
    ensures ShownAs(c, t, server, tool, v)
  {
  }

  ghost predicate IsShown(c: Config, st: State, server: nat, tools: seq<Tool>, v: Tool)
    requires server < |c.servers|
  {
    exists i :: 0 <= i < |tools| && ShownAs(c, st, server, tools[i], v)
  }

  lemma {:induction false} AllShownUpTo(c: Config, st: State, server: nat, tools: seq<Tool>, n: nat, k: nat)
    requires server < |c.servers| && n <= |tools| && k < |ObserveTools(c, st, server, tools[..n]).visible|
    ensures var t := ObserveTools(c, st, server, tools[..n]);
            exists i :: 0 <= i < n && ShownAs(c, t.st, server, tools[i], t.visible[k])
  {
    hide ObserveOne, ShownAs, Extends, ObserveTools;
    ObserveNone(c, st, server, tools);
    if n > 0 {
      ObserveNext(c, st, server, tools, n - 1);
      var s, t := ObserveTools(c, st, server, tools[..n - 1]), ObserveTools(c, st, server, tools[..n]);
      OneShown(c, s, server, tools[n - 1]);
      SpanKeeps(c, st, server, tools, n - 1, n);
      if k < |s.visible| {
        AllShownUpTo(c, st, server, tools, n - 1, k);
        var i :| 0 <= i < n - 1 && ShownAs(c, s.st, server, tools[i], s.visible[k]);
        ShownStays(c, s.st, t.st, server, tools[i], s.visible[k]);
      }
    }
  }

  /** Every tool a listing shows matches its pin or its first-seen definition, and
      goes by a name only this server serves; so it stays in every later state. */
  lemma ShownMatches(c: Config, st: State, server: nat, tools: seq<Tool>, run: seq<Listing>, k: nat)
    requires server < |c.servers| && InServers(c, run)
    requires k < |ObserveTools(c, st, server, tools).visible|
    ensures var t := ObserveTools(c, st, server, tools);
            IsShown(c, t.st, server, tools, t.visible[k])
            && IsShown(c, After(c, Outcome(t.st, 0), run).st, server, tools, t.visible[k])
  {
    hide ObserveTools, ShownAs, Extends, RoutesOk, After;
    assert tools[..|tools|] == tools;
    AllShownUpTo(c, st, server, tools, |tools|, k);
    var t := ObserveTools(c, st, server, tools);
    var later := After(c, Outcome(t.st, 0), run).st;
    RunKeeps(c, Outcome(t.st, 0), run);
    var i :| 0 <= i < |tools| && ShownAs(c, t.st, server, tools[i], t.visible[k]);
    ShownStays(c, t.st, later, server, tools[i], t.visible[k]);
  }

  // ----- routes lead to the first tool listed -----

  /** The tool a listing entry names, if it names one. */
  function KeyOf(server: nat, tool: Tool): seq<Key> {
    if tool.name.Some? then [Key(server, tool.name.value)] else []
  }

  function ListingKeys(server: nat, tools: seq<Tool>): seq<Key> {
    if tools == [] then []
    else ListingKeys(server, tools[..|tools| - 1]) + KeyOf(server, tools[|tools| - 1])
  }

  /** Every tool listed in a run, in order. */
  function RunKeys(run: seq<Listing>): seq<Key> {
    if run == [] then [] else RunKeys(run[..|run| - 1]) + ListingKeys(run[|run| - 1].server, run[|run| - 1].tools)
  }

  predicate IsUnder(c: Config, namespaced: set<string>, key: Key, agent: string) {
    key.server < |c.servers| && AgentName(c, namespaced, key.server, key.tool) == agent
  }

  /** `key` is the first of `keys` that goes by `agent`. */
  ghost predicate IsFirst(c: Config, namespaced: set<string>, keys: seq<Key>, agent: string, key: Key) {
    exists i :: 0 <= i < |keys| && keys[i] == key && IsUnder(c, namespaced, key, agent)
      && forall j :: 0 <= j < i ==> !IsUnder(c, namespaced, keys[j], agent)
  }

  ghost predicate IsListed(c: Config, namespaced: set<string>, keys: seq<Key>, agent: string) {
    exists key :: key in keys && IsUnder(c, namespaced, key, agent)
  }

  /** A name has a route exactly when it was listed, and it leads to the tool first
      listed under that name. */
  ghost predicate RoutesFirst(c: Config, st: State, keys: seq<Key>) {
    forall a :: if a in st.exposed then IsFirst(c, st.namespaced, keys, a, st.exposed[a])
                else !IsListed(c, st.namespaced, keys, a)
  }

  lemma FirstStays(c: Config, namespaced: set<string>, keys: seq<Key>, more: seq<Key>, agent: string, key: Key)
    requires IsFirst(c, namespaced, keys, agent, key)
    ensures IsFirst(c, namespaced, keys + more, agent, key)
  {
    hide IsUnder;
    var i :| 0 <= i < |keys| && keys[i] == key && IsUnder(c, namespaced, key, agent)
      && forall j :: 0 <= j < i ==> !IsUnder(c, namespaced, keys[j], agent);
    assert (keys + more)[i] == key;
  }

  lemma FirstNew(c: Config, namespaced: set<string>, keys: seq<Key>, agent: string, key: Key)
    requires !IsListed(c, namespaced, keys, agent) && IsUnder(c, namespaced, key, agent)
    ensures IsFirst(c, namespaced, keys + [key], agent, key)
  {
    hide IsUnder;
    assert (keys + [key])[|keys|] == key;
    forall j | 0 <= j < |keys| ensures !IsUnder(c, namespaced, (keys + [key])[j], agent) {
      assert keys[j] in keys;
    }
  }

  lemma FirstIsListed(c: Config, namespaced: set<string>, keys: seq<Key>, agent: string, key: Key)
    requires IsFirst(c, namespaced, keys, agent, key)
    ensures IsListed(c, namespaced, keys, agent)
  {
    hide IsUnder;
  }

  /** What one listed tool exposes, whatever becomes of it otherwise. */
  lemma OneExposes(c: Config, s: Seen, server: nat, tool: Tool)
    requires server < |c.servers| && c.routed
    ensures var st, t := s.st, ObserveOne(c, s, server, tool).st;
            && t.namespaced == st.namespaced
            && t.exposed ==
               if tool.name.None? then st.exposed
               else
                 var agent := AgentName(c, st.namespaced, server, tool.name.value);
                 if agent in st.exposed then st.exposed else st.exposed[agent := Key(server, tool.name.value)]
  {
    hide Drifted, AgentName;
  }

  lemma OneFirst(c: Config, s: Seen, server: nat, tool: Tool, keys: seq<Key>)
    requires server < |c.servers| && c.routed && RoutesFirst(c, s.st, keys)
    ensures RoutesFirst(c, ObserveOne(c, s, server, tool).st, keys + KeyOf(server, tool))
  {
    hide ObserveOne, AgentName, IsFirst, IsListed;
    OneExposes(c, s, server, tool);
    var st, t, more := s.st, ObserveOne(c, s, server, tool).st, KeyOf(server, tool);
    forall a ensures if a in t.exposed then IsFirst(c, st.namespaced, keys + more, a, t.exposed[a])
                     else !IsListed(c, st.namespaced, keys + more, a)
    {
      if a in st.exposed {
        FirstStays(c, st.namespaced, keys, more, a, st.exposed[a]);
      } else if a in t.exposed {
        FirstNew(c, st.namespaced, keys, a, t.exposed[a]);
      } else {
        UnlistedStays(c, st.namespaced, keys, more, a);
      }
    }
  }

  lemma UnlistedStays(c: Config, namespaced: set<string>, keys: seq<Key>, more: seq<Key>, agent: string)
    requires !IsListed(c, namespaced, keys, agent) && forall k :: k in more ==> !IsUnder(c, namespaced, k, agent)
    ensures !IsListed(c, namespaced, keys + more, agent)
  {
    hide IsUnder;
  }

  lemma ListingKeysNext(server: nat, tools: seq<Tool>, n: nat)
    requires n < |tools|
    ensures ListingKeys(server, tools[..n + 1]) == ListingKeys(server, tools[..n]) + KeyOf(server, tools[n])
  {
    assert tools[..n + 1][..n] == tools[..n];
  }

  lemma NoListingKeys(server: nat, tools: seq<Tool>, keys: seq<Key>)
    ensures keys + ListingKeys(server, tools[..0]) == keys
  {
  }

  lemma {:induction false} ListingFirst(c: Config, st: State, server: nat, tools: seq<Tool>, n: nat, keys: seq<Key>)
    requires server < |c.servers| && n <= |tools| && c.routed && RoutesFirst(c, st, keys)
    ensures RoutesFirst(c, ObserveTools(c, st, server, tools[..n]).st, keys + ListingKeys(server, tools[..n]))
  {
    hide *;
    ObserveNone(c, st, server, tools);
    NoListingKeys(server, tools, keys);
    if n > 0 {
      ListingFirst(c, st, server, tools, n - 1, keys);
      ObserveNext(c, st, server, tools, n - 1);
      ListingKeysNext(server, tools, n - 1);
      var before := keys + ListingKeys(server, tools[..n - 1]);
      OneFirst(c, ObserveTools(c, st, server, tools[..n - 1]), server, tools[n - 1], before);
      Lists.ConcatAssociates(keys, ListingKeys(server, tools[..n - 1]), KeyOf(server, tools[n - 1]));
    }
  }

  /** After any run from start-up, a name has a route exactly when some server listed
      a tool under it, and the route leads to the first one listed so. */
  lemma {:induction false} RunFirst(c: Config, namespaced: set<string>, run: seq<Listing>)
    requires InServers(c, run) && c.routed
    ensures RoutesFirst(c, After(c, Start(namespaced), run).st, RunKeys(run))
  {
    hide RoutesFirst, ObserveTools, ListingKeys;
    if run == [] {
      StartFirst(c, namespaced);
    } else {
      var n := |run| - 1;
      RunFirst(c, namespaced, run[..n]);
      assert run[n].tools[..|run[n].tools|] == run[n].tools;
      ListingFirst(c, After(c, Start(namespaced), run[..n]).st, run[n].server, run[n].tools, |run[n].tools|,
                   RunKeys(run[..n]));
    }
  }

  lemma StartFirst(c: Config, namespaced: set<string>)
    ensures RoutesFirst(c, Start(namespaced).st, [])
  {
  }

  /** The routes after any run, said for one name. */
  lemma RoutesToFirstListed(c: Config, namespaced: set<string>, run: seq<Listing>, agent: string, key: Key)
    requires InServers(c, run) && c.routed
    ensures var route := Route(c, After(c, Start(namespaced), run).st, agent);
            && (route.None? <==> !IsListed(c, namespaced, RunKeys(run), agent))
            && (route == Some(key) <==> IsFirst(c, namespaced, RunKeys(run), agent, key))
  {
    var st, keys := After(c, Start(namespaced), run).st, RunKeys(run);
    RunFirst(c, namespaced, run);
    RunKeeps(c, Start(namespaced), run);
    SameNamespaced(Start(namespaced).st, st);
    hide After, RunKeys, Extends, IsUnder, RoutesOk;
    if agent in st.exposed {
      FirstIsListed(c, namespaced, keys, agent, st.exposed[agent]);
      if IsFirst(c, namespaced, keys, agent, key) {
        FirstUnique(c, namespaced, keys, agent, key, st.exposed[agent]);
      }
    } else if IsFirst(c, namespaced, keys, agent, key) {
      FirstIsListed(c, namespaced, keys, agent, key);
    }
  }

  lemma FirstUnique(c: Config, namespaced: set<string>, keys: seq<Key>, agent: string, k: Key, l: Key)
    requires IsFirst(c, namespaced, keys, agent, k) && IsFirst(c, namespaced, keys, agent, l)
    ensures k == l
  {
    hide IsUnder;
  }

  lemma SameNamespaced(s: State, t: State)
    requires Extends(s, t)
    ensures s.namespaced == t.namespaced
  {
  }

  // ----- shown tools route back -----

  /** The server lists this name as it is although it is the per-server name of
      another of its tools. */
  predicate IsLiteral(c: Config, namespaced: set<string>, server: nat, name: string)
    requires server < |c.servers|
  {
    name !in namespaced && exists n :: n in namespaced && name == Namespaced(c.servers[server], n)
  }

  lemma NamespacedInjective(server: string, m: string, n: string)
    requires Namespaced(server, m) == Namespaced(server, n)
    ensures m == n
  {
    ConcatCancels(server, "__" + m, server, "__" + n);
    ConcatCancels("__", m, "__", n);
  }

  /** Two names of one server are shown alike exactly when they are equal or one is
      the other's per-server name taken literally. */
  lemma AgentNamesAlike(c: Config, namespaced: set<string>, server: nat, m: string, n: string)
    requires server < |c.servers| && c.routed
    ensures AgentName(c, namespaced, server, m) == AgentName(c, namespaced, server, n) <==>
            m == n || (m in namespaced && n !in namespaced && n == Namespaced(c.servers[server], m))
                   || (n in namespaced && m !in namespaced && m == Namespaced(c.servers[server], n))
  {
    hide Namespaced;
    if m in namespaced && n in namespaced && Namespaced(c.servers[server], m) == Namespaced(c.servers[server], n) {
      NamespacedInjective(c.servers[server], m, n);
    }
  }

  /** No server lists such a literal name. */
  ghost predicate NoLiterals(c: Config, namespaced: set<string>, server: nat, tools: seq<Tool>)
    requires server < |c.servers|
  {
    forall i :: 0 <= i < |tools| && tools[i].name.Some? ==> !IsLiteral(c, namespaced, server, tools[i].name.value)
  }

  ghost predicate RunNoLiterals(c: Config, namespaced: set<string>, run: seq<Listing>)
    requires InServers(c, run)
  {
    forall i :: 0 <= i < |run| ==> NoLiterals(c, namespaced, run[i].server, run[i].tools)
  }

  /** A key that is not listed again does not become blocked. */
  lemma {:induction false} OthersDoNotBlock(c: Config, st: State, server: nat, tools: seq<Tool>, i: nat, j: nat,
                                            key: Key)
    requires server < |c.servers| && i <= j <= |tools|
    requires key !in ObserveTools(c, st, server, tools[..i]).st.blocked
    requires forall k :: i <= k < j ==> tools[k].name != Some(key.tool)
    ensures key !in ObserveTools(c, st, server, tools[..j]).st.blocked
  {
    hide ObserveTools;
    if i < j {
      OthersDoNotBlock(c, st, server, tools, i, j - 1, key);
      ObserveNext(c, st, server, tools, j - 1);
      hide Drifted, AgentName;
    }
  }

  ghost predicate DistinctNames(tools: seq<Tool>) {
    forall i, j :: 0 <= i < j < |tools| && tools[i].name.Some? ==> tools[i].name != tools[j].name
  }

  /** Tool `i` is shown by this listing. */
  ghost predicate Shows(c: Config, st: State, server: nat, tools: seq<Tool>, i: nat)
    requires server < |c.servers| && i < |tools|
  {
    |ObserveTools(c, st, server, tools[..i + 1]).visible| > |ObserveTools(c, st, server, tools[..i]).visible|
  }

  lemma ShowsAs(c: Config, st: State, server: nat, tools: seq<Tool>, i: nat)
    requires server < |c.servers| && i < |tools| && Shows(c, st, server, tools, i)
    ensures var t := ObserveTools(c, st, server, tools[..i + 1]).st;
            tools[i].name.Some? && Key(server, tools[i].name.value) !in t.blocked
            && ShownAs(c, t, server, tools[i],
                       tools[i].(name := Some(AgentName(c, t.namespaced, server, tools[i].name.value))))
  {
    hide ObserveTools, ObserveOne;
    ObserveNext(c, st, server, tools, i);
    OneShown(c, ObserveTools(c, st, server, tools[..i]), server, tools[i]);
  }

  /** Another tool of the same server that goes by the same name: one of the two is
      the other's per-server name taken literally. */
  predicate IsTwin(c: Config, namespaced: set<string>, a: Key, b: Key) {
    && a.server == b.server < |c.servers| && a.tool != b.tool
    && (  (a.tool in namespaced && b.tool !in namespaced && b.tool == Namespaced(c.servers[a.server], a.tool))
       || (b.tool in namespaced && a.tool !in namespaced && a.tool == Namespaced(c.servers[a.server], b.tool)))
  }

  /** Every twin of `key` was listed only after `key` itself. */
  ghost predicate ListedBeforeTwins(c: Config, namespaced: set<string>, keys: seq<Key>, key: Key) {
    forall j :: 0 <= j < |keys| && IsTwin(c, namespaced, keys[j], key) ==> key in keys[..j]
  }

  lemma TwinsAlike(c: Config, namespaced: set<string>, a: Key, b: Key)
    requires c.routed && a.server == b.server < |c.servers|
    ensures AgentName(c, namespaced, a.server, a.tool) == AgentName(c, namespaced, b.server, b.tool) <==>
            a == b || IsTwin(c, namespaced, a, b)
  {
    AgentNamesAlike(c, namespaced, a.server, a.tool, b.tool);
    hide Namespaced, AgentName;
  }

  /** The first tool under a shared name is `key` exactly when no twin came before. */
  lemma FirstAmongTwins(c: Config, namespaced: set<string>, keys: seq<Key>, agent: string, key: Key, first: Key)
    requires c.routed && IsUnder(c, namespaced, key, agent)
    requires IsFirst(c, namespaced, keys, agent, first) && first.server == key.server
    ensures first == key <==> ListedBeforeTwins(c, namespaced, keys, key)
  {
    hide AgentName, IsTwin;
    var i :| 0 <= i < |keys| && keys[i] == first && IsUnder(c, namespaced, first, agent)
      && forall j :: 0 <= j < i ==> !IsUnder(c, namespaced, keys[j], agent);
    TwinsAlike(c, namespaced, first, key);
    if first == key {
      forall j | 0 <= j < |keys| && IsTwin(c, namespaced, keys[j], key) ensures key in keys[..j] {
        TwinServers(c, namespaced, keys[j], key);
        TwinsAlike(c, namespaced, keys[j], key);
        assert IsUnder(c, namespaced, keys[j], agent) && i < j;
        assert keys[..j][i] == key;
      }
    } else {
      assert forall k :: 0 <= k < i ==> keys[k] != key;
      assert IsTwin(c, namespaced, keys[i], key) && key !in keys[..i];
    }
  }

  lemma TwinServers(c: Config, namespaced: set<string>, a: Key, b: Key)
    requires IsTwin(c, namespaced, a, b)
    ensures a.server == b.server < |c.servers| && a != b
  {
  }

  /** What showing tool `i` says of the state after the whole listing. */
  lemma ShownAfter(c: Config, st: State, server: nat, tools: seq<Tool>, i: nat)
    requires c.routed && server < |c.servers| && i < |tools| && Shows(c, st, server, tools, i)
    ensures var t := ObserveTools(c, st, server, tools).st;
            tools[i].name.Some? && t.namespaced == st.namespaced &&
            var agent := AgentName(c, st.namespaced, server, tools[i].name.value);
            && agent in t.exposed && t.exposed[agent].server == server
            && (DistinctNames(tools) ==> Key(server, tools[i].name.value) !in t.blocked)
  {
    hide ObserveTools, Extends, RoutesOk, Shows, AgentName, ShownAs;
    ShowsAs(c, st, server, tools, i);
    assert tools[..|tools|] == tools;
    var s, t := ObserveTools(c, st, server, tools[..i + 1]).st, ObserveTools(c, st, server, tools).st;
    SpanKeeps(c, st, server, tools, i + 1, |tools|);
    SpanKeeps(c, st, server, tools, 0, i + 1);
    ObserveNone(c, st, server, tools);
    SameNamespaced(st, s);
    SameNamespaced(s, t);
    var name := tools[i].name.value;
    var v := tools[i].(name := Some(AgentName(c, st.namespaced, server, name)));
    ShownStays(c, s, t, server, tools[i], v);
    ShownUnder(c, t, server, tools[i], v);
    if DistinctNames(tools) {
      OthersDoNotBlock(c, st, server, tools, i + 1, |tools|, Key(server, name));
    }
  }

  lemma ShownUnder(c: Config, st: State, server: nat, tool: Tool, v: Tool)
    requires c.routed && server < |c.servers| && ShownAs(c, st, server, tool, v)
    ensures tool.name.Some? &&
            var agent := AgentName(c, st.namespaced, server, tool.name.value);
            agent in st.exposed && st.exposed[agent].server == server
  {
    hide AgentName, Matches;
  }

  lemma ThenListing(c: Config, o: Outcome, run: seq<Listing>, last: Listing)
    requires InServers(c, run) && last.server < |c.servers|
    ensures InServers(c, run + [last])
    ensures After(c, o, run + [last]).st == ObserveTools(c, After(c, o, run).st, last.server, last.tools).st
  {
    hide ObserveTools;
    assert (run + [last])[..|run|] == run;
  }

  /** After any run, a tool that a listing shows routes back to its own server and
      its own name exactly when it was listed before every twin of it; it is then
      not refused when no name is listed twice. */
  lemma ShownRoutesBack(c: Config, namespaced: set<string>, run: seq<Listing>, server: nat, tools: seq<Tool>, i: nat)
    requires c.routed && server < |c.servers| && InServers(c, run) && i < |tools|
    requires Shows(c, After(c, Start(namespaced), run).st, server, tools, i)
    ensures var t := ObserveTools(c, After(c, Start(namespaced), run).st, server, tools).st;
            tools[i].name.Some? &&
            var key := Key(server, tools[i].name.value);
            var agent := AgentName(c, namespaced, server, tools[i].name.value);
            && (Route(c, t, agent) == Some(key) <==>
                ListedBeforeTwins(c, namespaced, RunKeys(run + [Listing(server, tools)]), key))
            && (Route(c, t, agent) == Some(key) && DistinctNames(tools) ==> Refuse(c, t, agent).None?)
  {
    hide After, ObserveTools, Extends, RoutesOk, Shows, AgentName, RunKeys, IsFirst, IsUnder, ListedBeforeTwins, Route,
      Refuse;
    var st := After(c, Start(namespaced), run).st;
    RunKeeps(c, Start(namespaced), run);
    SameNamespaced(Start(namespaced).st, st);
    ShownAfter(c, st, server, tools, i);
    ThenListing(c, Start(namespaced), run, Listing(server, tools));
    var all := run + [Listing(server, tools)];
    var t := ObserveTools(c, st, server, tools).st;
    var key, agent := Key(server, tools[i].name.value), AgentName(c, namespaced, server, tools[i].name.value);
    RouteIs(c, t, agent);
    RoutesToFirstListed(c, namespaced, all, agent, t.exposed[agent]);
    OwnName(c, namespaced, key);
    FirstAmongTwins(c, namespaced, RunKeys(all), agent, key, t.exposed[agent]);
  }

  lemma RouteIs(c: Config, st: State, agent: string)
    requires c.routed && agent in st.exposed
    ensures Route(c, st, agent) == Some(st.exposed[agent])
    ensures st.exposed[agent] !in st.blocked ==> Refuse(c, st, agent).None?
  {
  }

  lemma OwnName(c: Config, namespaced: set<string>, key: Key)
    requires key.server < |c.servers|
    ensures IsUnder(c, namespaced, key, AgentName(c, namespaced, key.server, key.tool))
  {
  }

  /** A server that lists no per-server name literally has no twins listed, so each
      of its shown tools routes back. */
  lemma PlainRoutesBack(c: Config, namespaced: set<string>, run: seq<Listing>, server: nat, tools: seq<Tool>, i: nat)
    requires c.routed && server < |c.servers| && InServers(c, run) && i < |tools|
    requires RunNoLiterals(c, namespaced, run) && NoLiterals(c, namespaced, server, tools)
    requires Shows(c, After(c, Start(namespaced), run).st, server, tools, i)
    ensures var t := ObserveTools(c, After(c, Start(namespaced), run).st, server, tools).st;
            tools[i].name.Some? &&
            var agent := AgentName(c, namespaced, server, tools[i].name.value);
            && Route(c, t, agent) == Some(Key(server, tools[i].name.value))
            && (DistinctNames(tools) ==> Refuse(c, t, agent).None?)
  {
    hide *;
    ShownRoutesBack(c, namespaced, run, server, tools, i);
    ThenListing(c, Start(namespaced), run, Listing(server, tools));
    var all, key := run + [Listing(server, tools)], Key(server, tools[i].name.value);
    StillNoLiterals(c, namespaced, run, Listing(server, tools));
    PlainKeys(c, namespaced, all);
    NamedPlain(c, namespaced, server, tools, i);
    NoTwins(c, namespaced, RunKeys(all), key);
  }

  lemma StillNoLiterals(c: Config, namespaced: set<string>, run: seq<Listing>, last: Listing)
    requires InServers(c, run + [last]) && InServers(c, run) && last.server < |c.servers|
    requires RunNoLiterals(c, namespaced, run) && NoLiterals(c, namespaced, last.server, last.tools)
    ensures RunNoLiterals(c, namespaced, run + [last])
  {
    hide NoLiterals;
  }

  lemma NamedPlain(c: Config, namespaced: set<string>, server: nat, tools: seq<Tool>, i: nat)
    requires server < |c.servers| && i < |tools| && tools[i].name.Some? && NoLiterals(c, namespaced, server, tools)
    ensures !IsLiteral(c, namespaced, server, tools[i].name.value)
  {
    hide IsLiteral;
  }

  ghost predicate AllPlain(c: Config, namespaced: set<string>, keys: seq<Key>) {
    forall k :: k in keys ==> k.server < |c.servers| && !IsLiteral(c, namespaced, k.server, k.tool)
  }

  lemma {:induction false} PlainListing(c: Config, namespaced: set<string>, server: nat, tools: seq<Tool>)
    requires server < |c.servers| && NoLiterals(c, namespaced, server, tools)
    ensures AllPlain(c, namespaced, ListingKeys(server, tools))
  {
    hide IsLiteral;
    if tools != [] {
      PlainListing(c, namespaced, server, tools[..|tools| - 1]);
      assert tools[|tools| - 1].name.Some? ==> !IsLiteral(c, namespaced, server, tools[|tools| - 1].name.value);
    }
  }

  lemma {:induction false} PlainKeys(c: Config, namespaced: set<string>, run: seq<Listing>)
    requires InServers(c, run) && RunNoLiterals(c, namespaced, run)
    ensures AllPlain(c, namespaced, RunKeys(run))
  {
    hide IsLiteral, NoLiterals, ListingKeys;
    if run != [] {
      var n := |run| - 1;
      PlainKeys(c, namespaced, run[..n]);
      assert NoLiterals(c, namespaced, run[n].server, run[n].tools);
      PlainListing(c, namespaced, run[n].server, run[n].tools);
    }
  }

  lemma NoTwins(c: Config, namespaced: set<string>, keys: seq<Key>, key: Key)
    requires AllPlain(c, namespaced, keys) && key.server < |c.servers|
            && !IsLiteral(c, namespaced, key.server, key.tool)
    ensures ListedBeforeTwins(c, namespaced, keys, key)
  {
    hide IsTwin, IsLiteral;
    forall j | 0 <= j < |keys| ensures !IsTwin(c, namespaced, keys[j], key) {
      assert keys[j] in keys;
      PlainNotTwin(c, namespaced, keys[j], key);
    }
  }

  lemma PlainNotTwin(c: Config, namespaced: set<string>, a: Key, b: Key)
    requires a.server < |c.servers| && !IsLiteral(c, namespaced, a.server, a.tool)
    requires b.server < |c.servers| && !IsLiteral(c, namespaced, b.server, b.tool)
    ensures !IsTwin(c, namespaced, a, b)
  {
    hide Namespaced;
  }

  /** Misrouting happens: a server that lists a shared tool and then that tool's
      per-server name has both shown, and the second routes to the first. */
  lemma LiteralNameMisroutes(c: Config, namespaced: set<string>, server: nat, m: string, a: string, b: string)
    requires c.routed && c.lock.None? && server < |c.servers| && m in namespaced
    requires Namespaced(c.servers[server], m) !in namespaced
    ensures var literal := Namespaced(c.servers[server], m);
            var t := ObserveTools(c, Start(namespaced).st, server, [Tool(Some(m), a), Tool(Some(literal), b)]);
            t.visible == [Tool(Some(literal), a), Tool(Some(literal), b)]
            && Route(c, t.st, literal) == Some(Key(server, m)) && m != literal
  {
    hide Namespaced;
    var literal := Namespaced(c.servers[server], m);
    var x, y := Tool(Some(m), a), Tool(Some(literal), b);
    var tools := [x, y];
    ObserveNone(c, Start(namespaced).st, server, tools);
    ObserveNext(c, Start(namespaced).st, server, tools, 0);
    ObserveNext(c, Start(namespaced).st, server, tools, 1);
    assert tools[..2] == tools;
    hide ObserveTools;
    var first := ObserveOne(c, Seen(Start(namespaced).st, [], [], []), server, x);
    assert first.visible == [Tool(Some(literal), a)] && first.st.exposed == map[literal := Key(server, m)];
  }
}
