/** Which upstream server serves which tool, and which tools drifted. How a tool
    definition hashes is a parameter. */
module Catalog {
  import opened Text
  import opened Lists

  /** A listed tool: its name, when the definition has one, and the rest of it. */
  datatype Tool = Tool(name: Option<string>, rest: string)

  datatype Drift = Drift(server: string, tool: string)

  datatype Key = Key(server: nat, tool: string)

  /** server -> tool -> pinned hash */
  type ToolsLock = map<string, map<string, string>>

  datatype Config = Config(servers: seq<string>, routed: bool, lock: Option<ToolsLock>, hash: Tool -> string)

  /** `namespaced` tools are served per server, as `<server>__<tool>`. */
  datatype State = State(
    baseline: map<Key, string>, blocked: set<Key>, exposed: map<string, Key>, namespaced: set<string>)

  datatype Denial = ToolUnavailable | ToolDrift(server: string)

  function HashOf(lock: ToolsLock, server: string, tool: string): Option<string> {
    if server in lock && tool in lock[server] then Some(lock[server][tool]) else None
  }

  function Namespaced(server: string, tool: string): string {
    server + ("__" + tool)
  }

  function AgentName(c: Config, namespaced: set<string>, server: nat, tool: string): string
    requires server < |c.servers|
  {
    if c.routed && tool in namespaced then Namespaced(c.servers[server], tool) else tool
  }

  function Route(c: Config, st: State, tool: string): Option<Key> {
    if !c.routed then Some(Key(0, tool))
    else if tool in st.exposed then Some(st.exposed[tool])
    else None
  }

  function Refuse(c: Config, st: State, tool: string): Option<Denial> {
    if c.routed && tool !in st.exposed then Some(ToolUnavailable)
    else
      var key := if c.routed then st.exposed[tool] else Key(0, tool);
      if key in st.blocked then Some(ToolDrift(if key.server < |c.servers| then c.servers[key.server] else ""))
        else None
  }

  // ----- one listed tool -----

  /** What observing a listing gives so far. */
  datatype Seen = Seen(st: State, visible: seq<Tool>, drifts: seq<Drift>, clashes: seq<string>)

  /** The definition is not what it should be: its pin, or the first one seen. */
  predicate Drifted(c: Config, st: State, key: Key, tool: Tool)
    requires key.server < |c.servers|
  {
    if c.lock.Some? then HashOf(c.lock.value, c.servers[key.server], key.tool) != Some(c.hash(tool))
    else key in st.baseline && st.baseline[key] != c.hash(tool)
  }

  function Exposing(c: Config, st: State, agent: string, key: Key): State {
    if c.routed && agent !in st.exposed then st.(exposed := st.exposed[agent := key]) else st
  }

  function ObserveOne(c: Config, s: Seen, server: nat, tool: Tool): Seen
    requires server < |c.servers|
  {
    if tool.name.None? then s
    else
      var key := Key(server, tool.name.value);
      var agent := AgentName(c, s.st.namespaced, server, key.tool);
      if c.routed && agent in s.st.exposed && s.st.exposed[agent].server != server
      then s.(clashes := s.clashes + [agent])
      else
        var st := Exposing(c, s.st, agent, key);
        if key in st.blocked then s.(st := st)
        else if Drifted(c, st, key, tool)
        then s.(st := st.(blocked := st.blocked + {key}), drifts := s.drifts + [Drift(c.servers[server], agent)])
        else
          s.(st := if c.lock.None? && key !in st.baseline then st.(baseline := st.baseline[key := c.hash(tool)])
            else st,
             visible := s.visible + [tool.(name := Some(agent))])
  }

  function ObserveTools(c: Config, st: State, server: nat, tools: seq<Tool>): Seen
    requires server < |c.servers|
  {
    if tools == [] then Seen(st, [], [], [])
    else ObserveOne(c, ObserveTools(c, st, server, tools[..|tools| - 1]), server, tools[|tools| - 1])
  }

  // ----- the catalog -----

  class ToolCatalog {
    const config: Config
    var baseline: map<Key, string>
    var blocked: set<Key>
    var exposed: map<string, Key>
    const namespaced: set<string>

    constructor (config: Config, namespaced: set<string>)
      ensures this.config == config && this.namespaced == namespaced
      ensures Contents() == State(map[], {}, map[], namespaced)
    {
      this.config, this.namespaced, baseline, blocked, exposed := config, namespaced, map[], {}, map[];
    }

    function Contents(): State
      reads this
    {
      State(baseline, blocked, exposed, namespaced)
    }

    /** A server's listing as the agent may see it, the drifts found now, and the
        names another server serves. */
    method ObserveAll(server: nat, tools: seq<Tool>)
      returns (visible: seq<Tool>, drifts: seq<Drift>, clashes: seq<string>)
      requires server < |config.servers|
      modifies this
      ensures Seen(Contents(), visible, drifts, clashes) == ObserveTools(config, old(Contents()), server, tools)
    {
      hide ObserveOne;
      visible, drifts, clashes := [], [], [];
      for i := 0 to |tools|
        invariant Seen(Contents(), visible, drifts, clashes)
          == ObserveTools(config, old(Contents()), server, tools[..i])
      {
        assert tools[..i + 1][..i] == tools[..i];
        visible, drifts, clashes := ObserveTool(server, tools[i], visible, drifts, clashes);
      }
      assert tools[..|tools|] == tools;
    }

    method ObserveTool(server: nat, tool: Tool, visible0: seq<Tool>, drifts0: seq<Drift>, clashes0: seq<string>)
      returns (visible: seq<Tool>, drifts: seq<Drift>, clashes: seq<string>)
      requires server < |config.servers|
      modifies this
      ensures Seen(Contents(), visible, drifts, clashes)
              == ObserveOne(config, Seen(old(Contents()), visible0, drifts0, clashes0), server, tool)
    {
      visible, drifts, clashes := visible0, drifts0, clashes0;
      if tool.name.None? {
        return;
      }
      var name := tool.name.value;
      var agent := AgentName(config, namespaced, server, name);
      if config.routed {
        if agent in exposed {
          if exposed[agent].server != server {
            clashes := clashes + [agent];
            return;
          }
        } else {
          exposed := exposed[agent := Key(server, name)];
        }
      }
      var key := Key(server, name);
      if key in blocked {
        return;
      }
      var drifted := false;
      if config.lock.Some? {
        drifted := HashOf(config.lock.value, config.servers[server], name) != Some(config.hash(tool));
      } else if key in baseline {
        drifted := baseline[key] != config.hash(tool);
      } else {
        baseline := baseline[key := config.hash(tool)];
      }
      if drifted {
        blocked := blocked + {key};
        drifts := drifts + [Drift(config.servers[server], agent)];
        return;
      }
      visible := visible + [tool.(name := Some(agent))];
    }

    method RouteOf(tool: string) returns (key: Option<Key>)
      ensures key == Route(config, Contents(), tool)
    {
      if !config.routed {
        return Some(Key(0, tool));
      }
      key := if tool in exposed then Some(exposed[tool]) else None;
    }
  }

  // ----- server names and collisions -----

  predicate IsServerChar(c: char) {
    'a' <= c <= 'z' || 'A' <= c <= 'Z' || '0' <= c <= '9' || c == '-' || c == '_'
  }

  /** Letters, digits, `-` and `_`, without `__`. */
  predicate IsServerName(s: string) {
    s != "" && All(IsServerChar, s) && forall i :: 0 <= i < |s| - 1 ==> !(s[i] == '_' && s[i + 1] == '_')
  }

  /** Two servers' per-server names are equal only if one server's name is the
      other's with an underscore more. */
  lemma NamespacedNamesClash(s: string, t: string, m: string, n: string)
    requires IsServerName(s) && IsServerName(t) && |s| >= |t|
    ensures Namespaced(s, m) == Namespaced(t, n) <==> (s == t && m == n) || (s == t + "_" && n == "_" + m)
  {
    var a, b := Namespaced(s, m), Namespaced(t, n);
    if a == b {
      assert a[..|t|] == t && b[..|t|] == t && s[..|t|] == a[..|t|];
      assert a[|t|] == '_' && a[|t| + 1] == '_';
      if |s| == |t| {
        assert a[|s| + 2..] == m && b[|t| + 2..] == n;
      } else {
        assert s[|t|] == '_';
        assert |s| == |t| + 1;
        assert s == t + "_";
        assert b[|t| + 2..] == n && a[|t| + 2..] == "_" + m;
      }
    } else if s == t + "_" && n == "_" + m {
      SameText(t, m);
    }
  }

  lemma SameText(t: string, m: string)
    ensures Namespaced(t + "_", m) == Namespaced(t, "_" + m)
  {
    assert (t + "_") + ("__" + m) == t + ("__" + ("_" + m));
  }

  datatype ServerTools = ServerTools(name: string, tools: seq<Tool>)

  predicate Offers(s: ServerTools, tool: string) {
    exists t :: t in s.tools && t.name == Some(tool)
  }

  /** The servers among the first `n` that list the tool, in order. */
  function Owners(listing: seq<ServerTools>, n: nat, tool: string): (owners: seq<nat>)
    requires n <= |listing|
    ensures forall i: nat :: i in owners <==> i < n && Offers(listing[i], tool)
  {
    if n == 0 then []
    else Owners(listing, n - 1, tool) + (if Offers(listing[n - 1], tool) then [n - 1] else [])
  }

  predicate DeclaredPerServer(listing: seq<ServerTools>, declares: string -> bool, tool: string) {
    exists i :: 0 <= i < |listing| && Offers(listing[i], tool) && declares(Namespaced(listing[i].name, tool))
  }

  predicate Shared(listing: seq<ServerTools>, tool: string) {
    exists i, j :: 0 <= i < j < |listing| && Offers(listing[i], tool) && Offers(listing[j], tool)
  }

  function ToolNames(listing: seq<ServerTools>): set<string> {
    set i, t | 0 <= i < |listing| && t in listing[i].tools && t.name.Some? :: t.name.value
  }

  lemma {:induction false} OwnersAscend(listing: seq<ServerTools>, n: nat, tool: string)
    requires n <= |listing|
    ensures forall i, j :: 0 <= i < j < |Owners(listing, n, tool)| ==>
            Owners(listing, n, tool)[i] < Owners(listing, n, tool)[j]
  {
    if n > 0 {
      OwnersAscend(listing, n - 1, tool);
      var before := Owners(listing, n - 1, tool);
      forall i | 0 <= i < |before| ensures before[i] < n - 1 {
        assert before[i] in before;
      }
    }
  }

  lemma SharedOwners(listing: seq<ServerTools>, tool: string)
    ensures |Owners(listing, |listing|, tool)| > 1 <==> Shared(listing, tool)
  {
    var owners := Owners(listing, |listing|, tool);
    OwnersAscend(listing, |listing|, tool);
    hide Owners;
    if |owners| > 1 {
      assert owners[0] in owners && owners[1] in owners;
    } else if i, j :| 0 <= i < j < |listing| && Offers(listing[i], tool) && Offers(listing[j], tool) {
      assert i in owners && j in owners;
    }
  }

  /** The tools several servers list: those the manifest declares per server, and
      the others, which are refused. */
  method Collisions(listing: seq<ServerTools>, declares: string -> bool)
    returns (namespaced: set<string>, refused: seq<string>)
    ensures forall tool :: tool in namespaced <==> Shared(listing, tool) && DeclaredPerServer(listing, declares, tool)
    ensures forall tool :: tool in refused <==> Shared(listing, tool) && !DeclaredPerServer(listing, declares, tool)
  {
    hide *;
    var names := SortedStrings(ToolNames(listing));
    SharedNamed(listing);
    namespaced, refused := {}, [];
    for k := 0 to |names|
      invariant forall tool :: tool in namespaced <==>
                  tool in names[..k] && Shared(listing, tool) && DeclaredPerServer(listing, declares, tool)
      invariant forall tool :: tool in refused <==>
                  tool in names[..k] && Shared(listing, tool) && !DeclaredPerServer(listing, declares, tool)
    {
      var tool := names[k];
      assert names[..k + 1] == names[..k] + [tool];
      SharedOwners(listing, tool);
      var owners := Owners(listing, |listing|, tool);
      if |owners| > 1 {
        DeclaredOwners(listing, declares, tool);
        if exists i :: i in owners && i < |listing| && declares(Namespaced(listing[i].name, tool)) {
          namespaced := namespaced + {tool};
        } else {
          refused := refused + [tool];
        }
      }
    }
    assert names[..|names|] == names;
  }

  lemma SharedNamed(listing: seq<ServerTools>)
    ensures forall tool :: Shared(listing, tool) ==> tool in SortedStrings(ToolNames(listing))
  {
    hide SortedStrings;
    forall tool | Shared(listing, tool) ensures tool in SortedStrings(ToolNames(listing)) {
      var i, j :| 0 <= i < j < |listing| && Offers(listing[i], tool) && Offers(listing[j], tool);
      var t :| t in listing[i].tools && t.name == Some(tool);
      assert tool in ToolNames(listing);
    }
  }

  lemma DeclaredOwners(listing: seq<ServerTools>, declares: string -> bool, tool: string)
    ensures DeclaredPerServer(listing, declares, tool) <==>
            exists i :: i in Owners(listing, |listing|, tool) && i < |listing|
                        && declares(Namespaced(listing[i].name, tool))
  {
  }

  // ----- start-up -----

  datatype StartError =
    | NoServer | BadName(name: string) | GivenTwice(name: string) | Collision(tools: seq<string>)
    | ServedTwice(name: string)

  function NamesOf(listing: seq<ServerTools>): (names: seq<string>)
    ensures |names| == |listing|
  {
    Map(ServerName, listing)
  }

  function ServerName(s: ServerTools): string { s.name }

  /** The names are usable and distinct. */
  predicate GoodNames(names: seq<string>) {
    (forall i :: 0 <= i < |names| ==> IsServerName(names[i]))
      && (forall i, j :: 0 <= i < j < |names| ==> names[i] != names[j])
  }

  /** The state after observing the first `n` servers. */
  function StartState(c: Config, listing: seq<ServerTools>, namespaced: set<string>, n: nat): State
    requires n <= |listing| <= |c.servers|
  {
    if n == 0 then State(map[], {}, map[], namespaced)
    else ObserveTools(c, StartState(c, listing, namespaced, n - 1), n - 1, listing[n - 1].tools).st
  }

  /** Everything found at start-up, in order. */
  function StartDrifts(c: Config, listing: seq<ServerTools>, namespaced: set<string>, n: nat): seq<Drift>
    requires n <= |listing| <= |c.servers|
  {
    if n == 0 then []
    else
      StartDrifts(c, listing, namespaced, n - 1)
      + ObserveTools(c, StartState(c, listing, namespaced, n - 1), n - 1, listing[n - 1].tools).drifts
  }

  method CheckNames(listing: seq<ServerTools>) returns (error: Option<StartError>)
    ensures error.None? <==> GoodNames(NamesOf(listing))
  {
    hide IsServerName, Map;
    var seen := {};
    ghost var names := NamesOf(listing);
    for i := 0 to |listing|
      invariant seen == set j | 0 <= j < i :: names[j]
      invariant forall j :: 0 <= j < i ==> IsServerName(names[j])
      invariant forall j, k :: 0 <= j < k < i ==> names[j] != names[k]
    {
      var name := listing[i].name;
      assert name == names[i];
      if !IsServerName(name) {
        return Some(BadName(name));
      }
      if name in seen {
        return Some(GivenTwice(name));
      }
      seen := seen + {name};
    }
    error := None;
  }

  /** The servers found at start-up, routed by tool; refuses ambiguous listings. */
  method Routed(listing: seq<ServerTools>, lock: Option<ToolsLock>, declares: string -> bool, hash: Tool -> string)
    returns (result: Result<ToolCatalog, StartError>, drifts: seq<Drift>)
    ensures result.Ok? <==>
              && listing != [] && GoodNames(NamesOf(listing))
              && (forall tool :: Shared(listing, tool) ==> DeclaredPerServer(listing, declares, tool))
              && NoClash(Config(NamesOf(listing), true, lock, hash), listing, SharedNames(listing), |listing|)
    ensures result.Ok? ==>
              var c := result.value.config;
              && c == Config(NamesOf(listing), true, lock, hash) && result.value.namespaced == SharedNames(listing)
              && |listing| <= |c.servers|
              && result.value.Contents() == StartState(c, listing, result.value.namespaced, |listing|)
              && drifts == StartDrifts(c, listing, result.value.namespaced, |listing|)
    ensures result.Ok? ==> fresh(result.value)
  {
    hide *;
    drifts := [];
    if listing == [] {
      return Err(NoServer), [];
    }
    var error := CheckNames(listing);
    if error.Some? {
      return Err(error.value), [];
    }
    var namespaced, refused := Collisions(listing, declares);
    if refused != [] {
      SomeRefused(listing, declares, refused);
      return Err(Collision(refused)), [];
    }
    var config := Config(NamesOf(listing), true, lock, hash);
    NoneRefused(listing, declares, namespaced, refused);
    var catalog := new ToolCatalog(config, namespaced);
    StartsEmpty(config, listing, namespaced);
    for i := 0 to |listing|
      invariant catalog.config == config && catalog.namespaced == namespaced && fresh(catalog)
      invariant catalog.Contents() == StartState(config, listing, namespaced, i)
      invariant drifts == StartDrifts(config, listing, namespaced, i)
      invariant NoClash(config, listing, namespaced, i)
    {
      var _, found, clashes := catalog.ObserveAll(i, listing[i].tools);
      StartNext(config, listing, namespaced, i);
      if clashes != [] {
        ClashStays(config, listing, namespaced, i + 1, |listing|);
        return Err(ServedTwice(clashes[0])), [];
      }
      drifts := drifts + found;
    }
    result := Ok(catalog);
  }

  lemma NoneRefused(listing: seq<ServerTools>, declares: string -> bool, namespaced: set<string>, refused: seq<string>)
    requires forall tool :: tool in namespaced <==> Shared(listing, tool) && DeclaredPerServer(listing, declares, tool)
    requires forall tool :: tool in refused <==> Shared(listing, tool) && !DeclaredPerServer(listing, declares, tool)
    requires refused == []
    ensures forall tool :: Shared(listing, tool) ==> DeclaredPerServer(listing, declares, tool)
    ensures namespaced == SharedNames(listing)
  {
    SharedNamesAre(listing);
    hide Shared, DeclaredPerServer, SharedNames;
    forall tool | Shared(listing, tool) ensures DeclaredPerServer(listing, declares, tool) {
      assert tool !in refused;
    }
  }

  lemma SomeRefused(listing: seq<ServerTools>, declares: string -> bool, refused: seq<string>)
    requires forall tool :: tool in refused <==> Shared(listing, tool) && !DeclaredPerServer(listing, declares, tool)
    requires refused != []
    ensures !(forall tool :: Shared(listing, tool) ==> DeclaredPerServer(listing, declares, tool))
  {
    hide Shared, DeclaredPerServer;
    assert refused[0] in refused;
  }

  function SharedNames(listing: seq<ServerTools>): set<string> {
    set tool | tool in ToolNames(listing) && Shared(listing, tool)
  }

  lemma SharedNamesAre(listing: seq<ServerTools>)
    ensures forall tool :: tool in SharedNames(listing) <==> Shared(listing, tool)
  {
    forall tool | Shared(listing, tool) ensures tool in ToolNames(listing) {
      var i, j :| 0 <= i < j < |listing| && Offers(listing[i], tool) && Offers(listing[j], tool);
      var t :| t in listing[i].tools && t.name == Some(tool);
    }
  }

  /** No server of the first `n` lists a name another one already serves. */
  predicate NoClash(c: Config, listing: seq<ServerTools>, namespaced: set<string>, n: nat)
    requires n <= |listing| <= |c.servers|
  {
    n == 0 ||
    (NoClash(c, listing, namespaced, n - 1)
     && ObserveTools(c, StartState(c, listing, namespaced, n - 1), n - 1, listing[n - 1].tools).clashes == [])
  }

  lemma {:induction false} ClashStays(c: Config, listing: seq<ServerTools>, namespaced: set<string>, m: nat, n: nat)
    requires m <= n <= |listing| <= |c.servers| && !NoClash(c, listing, namespaced, m)
    ensures !NoClash(c, listing, namespaced, n)
  {
    if m < n {
      hide ObserveTools;
      ClashStays(c, listing, namespaced, m, n - 1);
    }
  }

  lemma StartsEmpty(c: Config, listing: seq<ServerTools>, namespaced: set<string>)
    requires |listing| <= |c.servers|
    ensures StartState(c, listing, namespaced, 0) == State(map[], {}, map[], namespaced)
    ensures StartDrifts(c, listing, namespaced, 0) == [] && NoClash(c, listing, namespaced, 0)
  {
  }

  lemma StartNext(c: Config, listing: seq<ServerTools>, namespaced: set<string>, i: nat)
    requires i < |listing| <= |c.servers|
    ensures var seen := ObserveTools(c, StartState(c, listing, namespaced, i), i, listing[i].tools);
            StartState(c, listing, namespaced, i + 1) == seen.st
            && StartDrifts(c, listing, namespaced, i + 1) == StartDrifts(c, listing, namespaced, i) + seen.drifts
            && (NoClash(c, listing, namespaced, i + 1) <==> NoClash(c, listing, namespaced, i) && seen.clashes == [])
  {
  }
}
