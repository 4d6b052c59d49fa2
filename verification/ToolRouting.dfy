/**
 Routing of MCP tools (mcp_gateway/routing.py) under the naming rules of the configuration (mcp_gateway/config.py).

 A Python dict keeps insertion order, so the table is a map together with its keys in the order they were added.
 Sessions and tool definitions are opaque numbers; a name that is missing or not a string is None.
*/
module ToolRouting {
  import opened Outcomes

  const MAX_TOOL_NAME_LENGTH: nat := 128
  const MAX_SERVER_NAME_LENGTH: nat := 64

  type Session = nat

  datatype Tool = Tool(name: Option<string>, definition: nat)

  datatype Server = Server(name: string, session: Session, tools: seq<Tool>)

  datatype Route = Route(server: string, original: string, session: Session, tool: Tool)

  datatype Reason = NotAString | TooLong | BadCharacters | Taken(owner: string)

  datatype Rejected = Rejected(server: string, raw: Option<string>, reason: Reason)

  datatype Table = Table(names: seq<string>, routes: map<string, Route>, rejected: seq<Rejected>) {
    ghost predicate Valid() {
      && (forall n :: n in names <==> n in routes)
      && (forall i, j | 0 <= i < j < |names| :: names[i] != names[j])
    }
  }

  const EMPTY := Table([], map[], [])

  // ---------------------------------------------------------------- names

  predicate ServerChar(c: char) { 'A' <= c <= 'Z' || 'a' <= c <= 'z' || '0' <= c <= '9' || c == '.' || c == '-' }

  predicate ToolChar(c: char) { ServerChar(c) || c == '_' }

  /** The text a `$`-anchored pattern has to match: one line break at the very end is let through. */
  function BeforeFinalBreak(s: string): string { if s != [] && s[|s| - 1] == '\n' then s[..|s| - 1] else s }

  predicate ServerNameOk(s: string) {
    var t := BeforeFinalBreak(s);
    1 <= |t| <= MAX_SERVER_NAME_LENGTH && forall c | c in t :: ServerChar(c)
  }

  predicate Conforming(s: string) {
    var t := BeforeFinalBreak(s);
    1 <= |t| <= MAX_TOOL_NAME_LENGTH && forall c | c in t :: ToolChar(c)
  }

  function ExposedName(server: string, tool: string): string { server + "__" + tool }

  lemma ServerNameHasNoUnderscore(s: string)
    requires ServerNameOk(s)
    ensures '_' !in s
  {
    var t := BeforeFinalBreak(s);
    assert forall i | 0 <= i < |s| :: s[i] == '\n' || s[i] in t;
  }

  function UnderscoreAt(s: string): nat { if s == [] || s[0] == '_' then 0 else 1 + UnderscoreAt(s[1..]) }

  lemma {:induction false} UnderscoreEnds(s: string, rest: string)
    requires '_' !in s
    ensures UnderscoreAt(s + "__" + rest) == |s|
  {
    if s != [] {
      assert (s + "__" + rest)[1..] == s[1..] + "__" + rest;
      UnderscoreEnds(s[1..], rest);
    }
  }

  /** With underscore-free server names the exposed name determines server and tool, whatever the tool is called. */
  lemma ExposedNameInjective(s: string, t: string, s': string, t': string)
    requires '_' !in s && '_' !in s' && ExposedName(s, t) == ExposedName(s', t')
    ensures s == s' && t == t'
  {
    UnderscoreEnds(s, t);
    UnderscoreEnds(s', t');
    var x, y := ExposedName(s, t), ExposedName(s', t');
    assert s == x[..|s|] && t == x[|s| + 2..] && s' == y[..|s'|] && t' == y[|s'| + 2..];
  }

  // ---------------------------------------------------------------- adding a server

  /** The name alone admits the tool: a non-empty string whose composed name is short and conforming. */
  predicate Acceptable(server: string, tool: Tool) {
    && tool.name.Some? && tool.name.value != []
    && |ExposedName(server, tool.name.value)| <= MAX_TOOL_NAME_LENGTH
    && Conforming(ExposedName(server, tool.name.value))
  }

  function NameReason(server: string, tool: Tool): (r: Reason)
    requires !Acceptable(server, tool)
    ensures r == NotAString <==> tool.name.None? || tool.name.value == ""
    ensures r == TooLong <==> tool.name.Some? && tool.name.value != "" && |server| + 2 + |tool.name.value| > 128
    ensures r == NotAString || r == TooLong || r == BadCharacters
  {
    if tool.name.None? || tool.name.value == [] then NotAString
    else if |ExposedName(server, tool.name.value)| > MAX_TOOL_NAME_LENGTH then TooLong
    else BadCharacters
  }

  function AddTool(t: Table, server: string, session: Session, tool: Tool): Table {
    if !Acceptable(server, tool) then
      t.(rejected := t.rejected + [Rejected(server, tool.name, NameReason(server, tool))])
    else
      var composed := ExposedName(server, tool.name.value);
      if composed in t.routes then
        t.(rejected := t.rejected + [Rejected(server, tool.name, Taken(t.routes[composed].server))])
      else
        t.(names := t.names + [composed], routes := t.routes[composed := Route(server, tool.name.value, session, tool)])
  }

  function AddTools(t: Table, server: string, session: Session, tools: seq<Tool>): Table {
    if tools == [] then t
    else AddTool(AddTools(t, server, session, tools[..|tools| - 1]), server, session, tools[|tools| - 1])
  }

  class RoutingTable {
    var names: seq<string>
    var routes: map<string, Route>
    var rejected: seq<Rejected>

    function View(): Table reads this { Table(names, routes, rejected) }

    constructor ()
      ensures View() == EMPTY
    {
      names, routes, rejected := [], map[], [];
    }

    method AddServer(server: string, session: Session, tools: seq<Tool>)
      modifies this
      ensures View() == AddTools(old(View()), server, session, tools)
      ensures old(View()).Valid() ==> View().Valid()
      ensures |names| + |rejected| == |old(names)| + |old(rejected)| + |tools|
    {
      for i := 0 to |tools|
        invariant View() == AddTools(old(View()), server, session, tools[..i])
        invariant old(View()).Valid() ==> View().Valid()
        invariant |names| + |rejected| == |old(names)| + |old(rejected)| + i
      {
        assert tools[..i + 1][..i] == tools[..i];
        AddToolValid(View(), server, session, tools[i]);
        var raw := tools[i].name;
        if raw.None? || raw.value == [] {
          rejected := rejected + [Rejected(server, raw, NotAString)];
          continue;
        }
        var composed := ExposedName(server, raw.value);
        if |composed| > MAX_TOOL_NAME_LENGTH {
          rejected := rejected + [Rejected(server, raw, TooLong)];
          continue;
        }
        if !Conforming(composed) {
          rejected := rejected + [Rejected(server, raw, BadCharacters)];
          continue;
        }
        if composed in routes {
          rejected := rejected + [Rejected(server, raw, Taken(routes[composed].server))];
          continue;
        }
        names := names + [composed];
        routes := routes[composed := Route(server, raw.value, session, tools[i])];
      }
      assert tools[..|tools|] == tools;
    }

    /** Exact lookup; a miss is a miss. */
    method Resolve(name: string) returns (r: Option<Route>)
      ensures r.Some? <==> name in routes
      ensures r.Some? ==> r.value == routes[name]
    {
      if name in routes { return Some(routes[name]); }
      return None;
    }
  }

  lemma AddToolValid(t: Table, server: string, session: Session, tool: Tool)
    ensures t.Valid() ==> AddTool(t, server, session, tool).Valid()
  {
  }

  // ---------------------------------------------------------------- the whole table

  function Build(servers: seq<Server>): Table {
    if servers == [] then EMPTY
    else
      var last := servers[|servers| - 1];
      AddTools(Build(servers[..|servers| - 1]), last.name, last.session, last.tools)
  }

  predicate GoodServers(servers: seq<Server>) {
    && (forall i | 0 <= i < |servers| :: '_' !in servers[i].name)
    && (forall i, j | 0 <= i < j < |servers| :: servers[i].name != servers[j].name)
  }

  /** The server publishes this route under this name: its first tool of that name, if the name is acceptable. */
  predicate PublishesAt(sv: Server, k: nat, name: string, r: Route) {
    && k < |sv.tools| && Acceptable(sv.name, sv.tools[k])
    && name == ExposedName(sv.name, sv.tools[k].name.value)
    && (forall j | 0 <= j < k :: sv.tools[j].name != sv.tools[k].name)
    && r == Route(sv.name, sv.tools[k].name.value, sv.session, sv.tools[k])
  }

  ghost predicate Publishes(sv: Server, name: string, r: Route) { exists k :: PublishesAt(sv, k, name, r) }

  predicate Maps(t: Table, name: string, r: Route) { name in t.routes && t.routes[name] == r }

  ghost predicate PublishesBy(sv: Server, n: nat, name: string, r: Route) {
    exists k | 0 <= k < n :: PublishesAt(sv, k, name, r)
  }

  /** Every route is another server's, under that server's own exposed name. */
  predicate Foreign(t: Table, server: string) {
    forall n | n in t.routes ::
      && t.routes[n].server != server && '_' !in t.routes[n].server
      && n == ExposedName(t.routes[n].server, t.routes[n].original)
  }

  function AddFirst(t: Table, sv: Server, n: nat): Table
    requires n <= |sv.tools|
  {
    AddTools(t, sv.name, sv.session, sv.tools[..n])
  }

  lemma AddNext(t: Table, sv: Server, n: nat)
    requires n < |sv.tools|
    ensures AddFirst(t, sv, n + 1) == AddTool(AddFirst(t, sv, n), sv.name, sv.session, sv.tools[n])
  {
    assert sv.tools[..n + 1][..n] == sv.tools[..n];
  }

  /** An earlier tool of the same server has the same name. */
  predicate Repeated(sv: Server, k: nat)
    requires k < |sv.tools|
  {
    exists j | 0 <= j < k :: sv.tools[j].name == sv.tools[k].name
  }

  /** The first tool of a repeated, acceptable name is the one published. */
  lemma {:induction false} FirstOfName(sv: Server, j: nat, k: nat) returns (f: nat)
    requires j < k < |sv.tools| && sv.tools[j].name == sv.tools[k].name && Acceptable(sv.name, sv.tools[k])
    ensures f <= j && sv.tools[f].name == sv.tools[k].name
    ensures PublishesAt(sv, f, ExposedName(sv.name, sv.tools[k].name.value), Route(sv.name, sv.tools[k].name.value, sv.session, sv.tools[f]))
  {
    if i :| 0 <= i < j && sv.tools[i].name == sv.tools[j].name {
      f := FirstOfName(sv, i, k);
    } else {
      f := j;
    }
  }

  /** One server's part of the table: exactly its first tools of acceptable names, beside what was there. */
  lemma {:induction false} ServerRoutes(t: Table, sv: Server, n: nat, name: string, r: Route)
    requires n <= |sv.tools| && '_' !in sv.name && Foreign(t, sv.name)
    ensures Maps(AddFirst(t, sv, n), name, r) <==> Maps(t, name, r) || PublishesBy(sv, n, name, r)
    decreases n, 0
  {
    if n == 0 {
      assert sv.tools[..0] == [];
    } else {
      ServerRoutes(t, sv, n - 1, name, r);
      AddNext(t, sv, n - 1);
      var tool := sv.tools[n - 1];
      AddedRoute(AddFirst(t, sv, n - 1), sv.name, sv.session, tool, name, r);
      PublishedOneMore(sv, n - 1, name, r);
      if Acceptable(sv.name, tool) && name == ExposedName(sv.name, tool.name.value) { TakenExactly(t, sv, n - 1); }
    }
  }

  /** A tool adds its route exactly when it is acceptable and its composed name is free. */
  lemma AddedRoute(u: Table, server: string, session: Session, tool: Tool, name: string, r: Route)
    ensures Maps(AddTool(u, server, session, tool), name, r) <==>
            if Acceptable(server, tool) && name == ExposedName(server, tool.name.value) && name !in u.routes
            then r == Route(server, tool.name.value, session, tool) else Maps(u, name, r)
  {
  }

  lemma PublishedOneMore(sv: Server, k: nat, name: string, r: Route)
    requires k < |sv.tools|
    ensures PublishesBy(sv, k + 1, name, r) <==> PublishesBy(sv, k, name, r) || PublishesAt(sv, k, name, r)
    ensures PublishesAt(sv, k, name, r) <==>
            && Acceptable(sv.name, sv.tools[k]) && name == ExposedName(sv.name, sv.tools[k].name.value)
            && !Repeated(sv, k) && r == Route(sv.name, sv.tools[k].name.value, sv.session, sv.tools[k])
  {
  }

  /** A composed name is taken exactly when the server itself listed the tool before, and then by that server. */
  lemma {:induction false} TakenExactly(t: Table, sv: Server, k: nat)
    requires k < |sv.tools| && '_' !in sv.name && Foreign(t, sv.name) && Acceptable(sv.name, sv.tools[k])
    ensures var name, u := ExposedName(sv.name, sv.tools[k].name.value), AddFirst(t, sv, k);
            && (name in u.routes <==> Repeated(sv, k))
            && (name in u.routes ==> u.routes[name].server == sv.name)
    decreases k, 1
  {
    var name, u := ExposedName(sv.name, sv.tools[k].name.value), AddFirst(t, sv, k);
    if name in u.routes {
      ServerRoutes(t, sv, k, name, u.routes[name]);
      if Maps(t, name, u.routes[name]) {
        ExposedNameInjective(sv.name, sv.tools[k].name.value, t.routes[name].server, t.routes[name].original);
      } else {
        PublishedIsRepeat(sv, k, name, u.routes[name]);
      }
    }
    if j :| 0 <= j < k && sv.tools[j].name == sv.tools[k].name {
      var f := FirstOfName(sv, j, k);
      ServerRoutes(t, sv, k, name, Route(sv.name, sv.tools[k].name.value, sv.session, sv.tools[f]));
    }
  }

  lemma PublishedIsRepeat(sv: Server, k: nat, name: string, r: Route)
    requires k < |sv.tools| && '_' !in sv.name && Acceptable(sv.name, sv.tools[k])
    requires name == ExposedName(sv.name, sv.tools[k].name.value) && PublishesBy(sv, k, name, r)
    ensures Repeated(sv, k) && r.server == sv.name
  {
    var j :| 0 <= j < k && PublishesAt(sv, j, name, r);
    ExposedNameInjective(sv.name, sv.tools[j].name.value, sv.name, sv.tools[k].name.value);
  }

  /** What one server's tools are refused for, in order: a bad name, or a repeat of the server's own. */
  function Refusals(sv: Server, n: nat): seq<Rejected>
    requires n <= |sv.tools|
  {
    if n == 0 then []
    else
      var init, tool := Refusals(sv, n - 1), sv.tools[n - 1];
      if !Acceptable(sv.name, tool) then init + [Rejected(sv.name, tool.name, NameReason(sv.name, tool))]
      else if Repeated(sv, n - 1) then init + [Rejected(sv.name, tool.name, Taken(sv.name))]
      else init
  }

  lemma {:induction false} ServerRefusals(t: Table, sv: Server, n: nat)
    requires n <= |sv.tools| && '_' !in sv.name && Foreign(t, sv.name)
    ensures AddFirst(t, sv, n).rejected == t.rejected + Refusals(sv, n)
  {
    if n == 0 {
      assert sv.tools[..0] == [];
    } else {
      ServerRefusals(t, sv, n - 1);
      AddNext(t, sv, n - 1);
      if Acceptable(sv.name, sv.tools[n - 1]) {
        TakenExactly(t, sv, n - 1);
      }
    }
  }

  // ---------------------------------------------------------------- which names are accepted

  /** Letters, digits, dots and dashes. */
  predicate Plain(s: string) {
    forall i | 0 <= i < |s| ::
      'a' <= s[i] <= 'z' || 'A' <= s[i] <= 'Z' || '0' <= s[i] <= '9' || s[i] == '.' || s[i] == '-'
  }

  /** With underscores as well. */
  predicate PlainTool(s: string) {
    forall i | 0 <= i < |s| ::
      'a' <= s[i] <= 'z' || 'A' <= s[i] <= 'Z' || '0' <= s[i] <= '9' || s[i] == '.' || s[i] == '-' || s[i] == '_'
  }

  lemma CharactersMean(s: string)
    ensures (forall c | c in s :: ServerChar(c)) <==> Plain(s)
    ensures (forall c | c in s :: ToolChar(c)) <==> PlainTool(s)
  {
    assert forall i | 0 <= i < |s| :: s[i] in s;
  }

  /** One line break at the end may be there and does not count. */
  predicate UpToBreak(s: string, t: string) { s == t || s == t + "\n" }

  /** A server name: 1 to 64 plain characters, and at most a line break after them. */
  lemma ServerNameExactly(s: string)
    ensures ServerNameOk(s) <==> exists t :: UpToBreak(s, t) && 1 <= |t| <= 64 && Plain(t)
  {
    var t := BeforeFinalBreak(s);
    CharactersMean(t);
    assert UpToBreak(s, t);
    if u :| UpToBreak(s, u) && 1 <= |u| <= 64 && Plain(u) { BreakIsCut(s, u); }
  }

  lemma BreakIsCut(s: string, t: string)
    requires UpToBreak(s, t) && t != [] && t[|t| - 1] != '\n'
    ensures BeforeFinalBreak(s) == t
  {
    if s != t { assert s[..|t|] == t; }
  }

  /** Under a plain server name a tool is accepted exactly when its name is not empty, fits, and has no other characters. */
  lemma AcceptableExactly(server: string, tool: Tool)
    requires server != [] && Plain(server)
    ensures Acceptable(server, tool) <==>
            && tool.name.Some? && tool.name.value != [] && |server| + 2 + |tool.name.value| <= 128
            && exists t :: UpToBreak(tool.name.value, t) && PlainTool(t)
  {
    if tool.name.Some? && tool.name.value != [] {
      var raw := tool.name.value;
      var t := BeforeFinalBreak(raw);
      assert UpToBreak(raw, t);
      BreakOfExposed(server, raw);
      CharactersMean(ExposedName(server, t));
      ExposedIsPlain(server, t);
      if u :| UpToBreak(raw, u) && PlainTool(u) {
        if u == [] { assert t == []; } else { BreakIsCut(raw, u); }
      }
    }
  }

  lemma BreakOfExposed(server: string, raw: string)
    requires raw != []
    ensures BeforeFinalBreak(ExposedName(server, raw)) == ExposedName(server, BeforeFinalBreak(raw))
  {
    var e := ExposedName(server, raw);
    assert e[|e| - 1] == raw[|raw| - 1];
    assert e[..|e| - 1] == ExposedName(server, raw[..|raw| - 1]);
  }

  lemma ExposedIsPlain(server: string, t: string)
    requires Plain(server)
    ensures PlainTool(ExposedName(server, t)) <==> PlainTool(t)
  {
    var e := ExposedName(server, t);
    assert forall i | 0 <= i < |server| :: e[i] == server[i];
    assert forall i | 0 <= i < |t| :: e[|server| + 2 + i] == t[i];
    if PlainTool(t) {
      forall i | 0 <= i < |e|
        ensures 'a' <= e[i] <= 'z' || 'A' <= e[i] <= 'Z' || '0' <= e[i] <= '9' || e[i] == '.' || e[i] == '-' || e[i] == '_'
      {
        if i >= |server| + 2 { assert e[i] == t[i - |server| - 2]; }
      }
    }
  }

  /** A tool named by 1 to 62 plain characters or underscores is published, unless its server listed the name before. */
  lemma PlainToolIsPublished(servers: seq<Server>, i: nat, k: nat)
    requires GoodServers(servers) && i < |servers| && k < |servers[i].tools| && !Repeated(servers[i], k)
    requires 1 <= |servers[i].name| <= 64 && Plain(servers[i].name)
    requires var name := servers[i].tools[k].name;
             name.Some? && 1 <= |name.value| <= 62 && PlainTool(name.value)
    ensures var sv := servers[i];
            var raw := sv.tools[k].name.value;
            Maps(Build(servers), sv.name + "__" + raw, Route(sv.name, raw, sv.session, sv.tools[k]))
  {
    var sv := servers[i];
    var raw := sv.tools[k].name.value;
    var r := Route(sv.name, raw, sv.session, sv.tools[k]);
    assert UpToBreak(raw, raw);
    AcceptableExactly(sv.name, sv.tools[k]);
    assert PublishesAt(sv, k, sv.name + "__" + raw, r);
    RoutesExactly(servers, sv.name + "__" + raw, r);
  }

  // ---------------------------------------------------------------- all servers

  lemma {:induction false} RoutesExactly(servers: seq<Server>, name: string, r: Route)
    requires GoodServers(servers)
    ensures Maps(Build(servers), name, r) <==> exists i | 0 <= i < |servers| :: Publishes(servers[i], name, r)
    decreases |servers|, 0
  {
    if servers != [] {
      var n := |servers| - 1;
      var init, last := servers[..n], servers[n];
      EarlierIsForeign(servers);
      RoutesExactly(init, name, r);
      ServerRoutes(Build(init), last, |last.tools|, name, r);
      assert last.tools[..|last.tools|] == last.tools;
      assert PublishesBy(last, |last.tools|, name, r) <==> Publishes(last, name, r);
      assert (exists i | 0 <= i < n :: Publishes(init[i], name, r)) <==> (exists i | 0 <= i < n :: Publishes(servers[i], name, r)) by {
        assert forall i | 0 <= i < n :: init[i] == servers[i];
      }
    }
  }

  lemma {:induction false} EarlierIsForeign(servers: seq<Server>)
    requires GoodServers(servers) && servers != []
    ensures Foreign(Build(servers[..|servers| - 1]), servers[|servers| - 1].name)
    decreases |servers| - 1, 1
  {
    var n := |servers| - 1;
    var t := Build(servers[..n]);
    forall name | name in t.routes
      ensures t.routes[name].server != servers[n].name && '_' !in t.routes[name].server
      ensures name == ExposedName(t.routes[name].server, t.routes[name].original)
    {
      RoutesExactly(servers[..n], name, t.routes[name]);
      var i :| 0 <= i < n && Publishes(servers[..n][i], name, t.routes[name]);
      assert servers[..n][i] == servers[i];
      var k :| PublishesAt(servers[i], k, name, t.routes[name]);
    }
  }

  /** The routes do not depend on the order in which the servers were added. */
  lemma OrderDoesNotMatter(servers: seq<Server>, others: seq<Server>)
    requires GoodServers(servers) && GoodServers(others) && forall sv :: sv in servers <==> sv in others
    ensures Build(servers).routes == Build(others).routes
  {
    var t, u := Build(servers), Build(others);
    forall name, r ensures Maps(t, name, r) <==> Maps(u, name, r) {
      SameServersSameRoute(servers, others, name, r);
      SameServersSameRoute(others, servers, name, r);
    }
    forall name ensures name in t.routes <==> name in u.routes {
      if name in t.routes { assert Maps(u, name, t.routes[name]); }
      if name in u.routes { assert Maps(t, name, u.routes[name]); }
    }
    forall name | name in t.routes ensures t.routes[name] == u.routes[name] {
      assert Maps(u, name, t.routes[name]);
    }
  }

  lemma SameServersSameRoute(servers: seq<Server>, others: seq<Server>, name: string, r: Route)
    requires GoodServers(servers) && GoodServers(others) && forall sv :: sv in servers <==> sv in others
    ensures Maps(Build(servers), name, r) ==> Maps(Build(others), name, r)
  {
    RoutesExactly(servers, name, r);
    RoutesExactly(others, name, r);
    if i :| 0 <= i < |servers| && Publishes(servers[i], name, r) {
      assert servers[i] in others;
      var j :| 0 <= j < |others| && others[j] == servers[i];
    }
  }

  function AllRefusals(servers: seq<Server>): seq<Rejected> {
    if servers == [] then []
    else
      var last := servers[|servers| - 1];
      AllRefusals(servers[..|servers| - 1]) + Refusals(last, |last.tools|)
  }

  /** The rejections, exactly: bad names, and repeats inside one server's own list; never another server's name. */
  lemma {:induction false} RejectionsExactly(servers: seq<Server>)
    requires GoodServers(servers)
    ensures Build(servers).rejected == AllRefusals(servers)
  {
    if servers != [] {
      var n := |servers| - 1;
      var last := servers[n];
      RejectionsExactly(servers[..n]);
      EarlierIsForeign(servers);
      ServerRefusals(Build(servers[..n]), last, |last.tools|);
      assert last.tools[..|last.tools|] == last.tools;
    }
  }

  function ToolCount(servers: seq<Server>): nat {
    if servers == [] then 0 else ToolCount(servers[..|servers| - 1]) + |servers[|servers| - 1].tools|
  }

  lemma {:induction false} AddToolsConserves(t: Table, server: string, session: Session, tools: seq<Tool>)
    requires t.Valid()
    ensures var u := AddTools(t, server, session, tools);
            u.Valid() && |u.names| + |u.rejected| == |t.names| + |t.rejected| + |tools|
  {
    if tools != [] {
      AddToolsConserves(t, server, session, tools[..|tools| - 1]);
    }
  }

  /** Every listed tool is published or rejected, and counted once. */
  lemma {:induction false} ToolsAreConserved(servers: seq<Server>)
    ensures Build(servers).Valid() && |Build(servers).routes| + |Build(servers).rejected| == ToolCount(servers)
  {
    BuildConserves(servers);
    DistinctKeys(Build(servers).names, Build(servers).routes);
  }

  lemma {:induction false} BuildConserves(servers: seq<Server>)
    ensures Build(servers).Valid() && |Build(servers).names| + |Build(servers).rejected| == ToolCount(servers)
  {
    if servers != [] {
      var last := servers[|servers| - 1];
      BuildConserves(servers[..|servers| - 1]);
      AddToolsConserves(Build(servers[..|servers| - 1]), last.name, last.session, last.tools);
    }
  }

  lemma {:induction false} DistinctKeys(names: seq<string>, routes: map<string, Route>)
    requires (forall n :: n in names <==> n in routes) && forall i, j | 0 <= i < j < |names| :: names[i] != names[j]
    ensures |names| == |routes|
  {
    if names == [] {
      assert routes == map[];
    } else {
      var last := names[|names| - 1];
      var init := names[..|names| - 1];
      assert forall n :: n in init <==> n in routes && n != last;
      DistinctKeys(init, routes - {last});
      assert (routes - {last}).Keys == routes.Keys - {last};
    }
  }

  // ---------------------------------------------------------------- shadowing

  /** The text before the first "__", None when there is none. */
  function Claimed(s: string): Option<string> {
    if |s| < 2 then None
    else if s[0] == '_' && s[1] == '_' then Some([])
    else
      var rest := Claimed(s[1..]);
      if rest.None? then None else Some([s[0]] + rest.value)
  }

  predicate Shadows(r: Route, configured: set<string>) {
    Claimed(r.original).Some? && Claimed(r.original).value in configured && Claimed(r.original).value != r.server
  }

  /** assert_no_cross_server_shadowing: the first offending name, or None. */
  method FindShadowing(t: Table, configured: set<string>) returns (r: Option<string>)
    requires t.Valid()
    ensures r.None? <==> forall n | n in t.routes :: !Shadows(t.routes[n], configured)
    ensures r.Some? ==> r.value in t.routes && Shadows(t.routes[r.value], configured)
    ensures r.Some? ==> exists i :: 0 <= i < |t.names| && t.names[i] == r.value
                                    && forall k | 0 <= k < i :: t.names[k] in t.routes && !Shadows(t.routes[t.names[k]], configured)
  {
    for i := 0 to |t.names|
      invariant forall k | 0 <= k < i :: t.names[k] in t.routes && !Shadows(t.routes[t.names[k]], configured)
    {
      assert t.names[i] in t.names;
      if Shadows(t.routes[t.names[i]], configured) {
        return Some(t.names[i]);
      }
    }
    return None;
  }

  lemma {:induction false} ClaimedOfExposed(s: string, rest: string)
    requires '_' !in s
    ensures Claimed(ExposedName(s, rest)) == Some(s)
  {
    var t := ExposedName(s, rest);
    if s != [] {
      assert t[1..] == ExposedName(s[1..], rest);
      ClaimedOfExposed(s[1..], rest);
      assert [s[0]] + s[1..] == s;
    }
  }

  lemma {:induction false} ClaimedSplits(s: string)
    requires Claimed(s).Some?
    ensures exists rest :: s == ExposedName(Claimed(s).value, rest)
  {
    if s[0] == '_' && s[1] == '_' {
      assert s == ExposedName([], s[2..]);
    } else {
      ClaimedSplits(s[1..]);
      var rest :| s[1..] == ExposedName(Claimed(s[1..]).value, rest);
      assert s == ExposedName([s[0]] + Claimed(s[1..]).value, rest);
    }
  }

  /** A route is refused exactly when its downstream name is an exposed name of another configured server. */
  lemma ShadowsExactly(r: Route, configured: set<string>)
    requires forall s | s in configured :: '_' !in s
    ensures Shadows(r, configured) <==>
            exists s, rest :: s in configured && s != r.server && r.original == ExposedName(s, rest)
  {
    if Shadows(r, configured) {
      ClaimedSplits(r.original);
    }
    if s, rest :| s in configured && s != r.server && r.original == ExposedName(s, rest) {
      ClaimedOfExposed(s, rest);
    }
  }

  /** Whether start-up is refused does not depend on the order of the servers. */
  lemma ShadowingIgnoresOrder(servers: seq<Server>, others: seq<Server>, configured: set<string>)
    requires GoodServers(servers) && GoodServers(others) && forall sv :: sv in servers <==> sv in others
    ensures (exists n | n in Build(servers).routes :: Shadows(Build(servers).routes[n], configured)) <==>
            (exists n | n in Build(others).routes :: Shadows(Build(others).routes[n], configured))
  {
    OrderDoesNotMatter(servers, others);
  }

  // ---------------------------------------------------------------- configuration

  datatype ServerConfig = ServerConfig(name: string, command: seq<string>, timeout: real, allow: seq<string>, deny: seq<string>)

  datatype ConfigError =
    | BadName(name: string)
    | NoCommand(name: string)
    | BadTimeout(name: string)
    | NoServers
    | DuplicateName(name: string)
    | BareEntry(name: string, entry: string)

  /** What ServerConfig demands of one server. */
  predicate ServerOk(c: ServerConfig) { ServerNameOk(c.name) && c.command != [] && c.timeout > 0.0 }

  predicate Namespaced(entry: string) { Claimed(entry).Some? }

  /** Namespaced means that "__" occurs. */
  lemma NamespacedExactly(entry: string)
    ensures Namespaced(entry) <==> exists before, after :: entry == before + "__" + after
  {
    if Namespaced(entry) {
      ClaimedSplits(entry);
      var rest :| entry == ExposedName(Claimed(entry).value, rest);
      assert entry == Claimed(entry).value + "__" + rest;
    }
    if before, after :| entry == before + "__" + after { ClaimedWhere(entry, before, after); }
  }

  lemma {:induction false} ClaimedWhere(s: string, before: string, after: string)
    requires s == before + "__" + after
    ensures Claimed(s).Some?
  {
    if before == "" {
      assert s[0] == '_' && s[1] == '_';
    } else {
      assert s[1..] == before[1..] + "__" + after;
      ClaimedWhere(s[1..], before[1..], after);
    }
  }

  /** The error is true of the configuration. */
  predicate Justified(servers: seq<ServerConfig>, e: ConfigError) {
    match e
    case BadName(name) => !ServerNameOk(name) && exists i | 0 <= i < |servers| :: servers[i].name == name
    case NoCommand(name) => exists i | 0 <= i < |servers| :: servers[i].name == name && servers[i].command == []
    case BadTimeout(name) => exists i | 0 <= i < |servers| :: servers[i].name == name && servers[i].timeout <= 0.0
    case NoServers => servers == []
    case DuplicateName(name) => exists i, j | 0 <= i < j < |servers| :: servers[i].name == servers[j].name == name
    case BareEntry(name, entry) =>
      |servers| != 1 && !Namespaced(entry)
      && exists i | 0 <= i < |servers| :: servers[i].name == name && entry in servers[i].allow + servers[i].deny
  }

  predicate PolicyOk(c: ServerConfig) { forall e | e in c.allow + c.deny :: Namespaced(e) }

  /** The checks of ServerConfig and GatewayConfig, in the order they are made; the names when all pass. */
  method CheckConfig(servers: seq<ServerConfig>) returns (r: Result<set<string>, ConfigError>)
    ensures r.Ok? <==>
            && servers != []
            && (forall i | 0 <= i < |servers| :: ServerNameOk(servers[i].name) && servers[i].command != [] && servers[i].timeout > 0.0)
            && (forall i, j | 0 <= i < j < |servers| :: servers[i].name != servers[j].name)
            && (|servers| == 1 || forall i, e | 0 <= i < |servers| && e in servers[i].allow + servers[i].deny :: Namespaced(e))
    ensures r.Ok? ==> (forall i | 0 <= i < |servers| :: servers[i].name in r.value) && forall s | s in r.value :: '_' !in s
    ensures r.Err? ==> Justified(servers, r.error)
  {
    var bad := FirstBadServer(servers);
    if bad.Some? { return Err(bad.value); }
    if |servers| == 0 { return Err(NoServers); }
    var names := DistinctNames(servers);
    if names.Err? { return Err(names.error); }
    var bare := FirstBarePolicy(servers);
    if bare.Some? && |servers| != 1 { return Err(bare.value); }
    forall s | s in names.value ensures '_' !in s {
      var k :| 0 <= k < |servers| && servers[k].name == s;
      assert ServerOk(servers[k]);
      ServerNameHasNoUnderscore(s);
    }
    return Ok(names.value);
  }

  /** ServerConfig's own checks, server by server. */
  method FirstBadServer(servers: seq<ServerConfig>) returns (r: Option<ConfigError>)
    ensures r.None? <==> forall i | 0 <= i < |servers| :: ServerOk(servers[i])
    ensures r.Some? ==> Justified(servers, r.value)
  {
    for i := 0 to |servers|
      invariant forall k | 0 <= k < i :: ServerOk(servers[k])
    {
      if !ServerNameOk(servers[i].name) { return Some(BadName(servers[i].name)); }
      if servers[i].command == [] { return Some(NoCommand(servers[i].name)); }
      if servers[i].timeout <= 0.0 { return Some(BadTimeout(servers[i].name)); }
    }
    return None;
  }

  /** The loop that refuses a name seen before. */
  method DistinctNames(servers: seq<ServerConfig>) returns (r: Result<set<string>, ConfigError>)
    ensures r.Ok? <==> forall i, j | 0 <= i < j < |servers| :: servers[i].name != servers[j].name
    ensures r.Ok? ==> forall s :: s in r.value <==> exists k | 0 <= k < |servers| :: servers[k].name == s
    ensures r.Err? ==> Justified(servers, r.error)
  {
    var seen: set<string> := {};
    for i := 0 to |servers|
      invariant forall s :: s in seen <==> exists k | 0 <= k < i :: servers[k].name == s
      invariant forall j, k | 0 <= j < k < i :: servers[j].name != servers[k].name
    {
      if servers[i].name in seen { return Err(DuplicateName(servers[i].name)); }
      seen := seen + {servers[i].name};
    }
    return Ok(seen);
  }

  method FirstBarePolicy(servers: seq<ServerConfig>) returns (r: Option<ConfigError>)
    ensures r.None? <==> forall i | 0 <= i < |servers| :: PolicyOk(servers[i])
    ensures r.Some? && |servers| != 1 ==> Justified(servers, r.value)
  {
    for i := 0 to |servers|
      invariant forall k | 0 <= k < i :: PolicyOk(servers[k])
    {
      var bare := FirstBare(servers[i].allow + servers[i].deny);
      if bare.Some? { return Some(BareEntry(servers[i].name, bare.value)); }
    }
    return None;
  }

  method FirstBare(entries: seq<string>) returns (r: Option<string>)
    ensures r.None? <==> forall e | e in entries :: Namespaced(e)
    ensures r.Some? ==> r.value in entries && !Namespaced(r.value)
  {
    for i := 0 to |entries|
      invariant forall k | 0 <= k < i :: Namespaced(entries[k])
    {
      if !Namespaced(entries[i]) { return Some(entries[i]); }
    }
    return None;
  }

  /** A server name ending in a line break passes the pattern, but then nothing of that server is published. */
  lemma BrokenServerPublishesNothing(server: string, tool: Tool)
    requires '\n' in server
    ensures !Acceptable(server, tool)
  {
    if tool.name.Some? {
      var e := ExposedName(server, tool.name.value);
      var i :| 0 <= i < |server| && server[i] == '\n';
      assert e[i] == '\n' && i < |e| - 1;
      assert BeforeFinalBreak(e)[i] == '\n' && BeforeFinalBreak(e)[i] in BeforeFinalBreak(e);
    }
  }

  predicate StrictlyConforming(s: string) { 1 <= |s| <= MAX_TOOL_NAME_LENGTH && forall c | c in s :: ToolChar(c) }

  /** A published name conforms to the MCP rules exactly when the tool's own name does not end in a line break. */
  lemma PublishedNameConforms(server: string, tool: Tool)
    requires Acceptable(server, tool)
    ensures StrictlyConforming(ExposedName(server, tool.name.value)) <==> tool.name.value[|tool.name.value| - 1] != '\n'
  {
    var raw := tool.name.value;
    var e := ExposedName(server, raw);
    assert e[|e| - 1] == raw[|raw| - 1] && e[|e| - 1] in e;
  }
}
