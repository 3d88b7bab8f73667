/**
 The cluster catalogue and its identity mapping (src/bk/admin_cluster.py, src/bk/cluster.py): nodes are added, changed,
 switched and removed, and node-local UIDs are mapped to cluster principals and unmapped again.
 */
module Catalogue {
  import opened Options

  datatype Node = Node(
    name: string, nodeId: string, local: bool, target: Option<string>,
    executable: string, priority: int, timeout: real, enabled: bool)

  datatype Member = Member(nodeId: string, uid: int)

  datatype Principal = Principal(id: string, members: seq<Member>)

  datatype Config = Config(nodes: seq<Node>, principals: seq<Principal>)

  datatype Command =
    | Add(name: string, nodeId: string, address: string, executable: string, priority: int, timeout: real)
    | Set(name: string, newTarget: Option<string>, newExecutable: Option<string>, newPriority: Option<int>,
          newTimeout: Option<real>)
    | Remove(name: string)
    | Enable(name: string, on: bool)
    | Map(principal: string, node: string, uid: int)
    | Unmap(node: string, uid: int)

  datatype Fault =
    | UnknownNode
    | NodeExists
    | NothingSelected
    | LocalTarget
    | AlreadyMapped(principal: string)
    | NotMapped

  datatype Reply = Updated(config: Config) | Refused(fault: Fault)

  // ---------------------------------------------------------------- lookups

  /** The first node of that name. */
  function NodeOf(nodes: seq<Node>, name: string): (r: Option<Node>)
    ensures r.None? <==> forall i | 0 <= i < |nodes| :: nodes[i].name != name
    ensures r.Some? ==> r.value in nodes && r.value.name == name
  {
    if |nodes| == 0 then None
    else if nodes[0].name == name then Some(nodes[0])
    else NodeOf(nodes[1..], name)
  }

  /** How often a pair is listed, over all principals together. */
  function Times(ps: seq<Principal>, m: Member): nat {
    if |ps| == 0 then 0 else multiset(ps[0].members)[m] + Times(ps[1..], m)
  }

  /** The first principal that lists the pair. */
  function Holder(ps: seq<Principal>, m: Member): (r: Option<Principal>)
    ensures r.Some? ==> r.value in ps && m in r.value.members
  {
    if |ps| == 0 then None
    else if m in ps[0].members then Some(ps[0])
    else Holder(ps[1..], m)
  }

  // ---------------------------------------------------------------- updates

  /** Which members an update drops: those on a removed node, or one unmapped pair. */
  datatype Drop = ByNode(nodeId: string) | ByPair(pair: Member)

  predicate Spares(drop: Drop, m: Member) {
    match drop
    case ByNode(nodeId) => m.nodeId != nodeId
    case ByPair(pair) => m != pair
  }

  function Keep(members: seq<Member>, drop: Drop): seq<Member> {
    if |members| == 0 then []
    else
      var n := |members| - 1;
      Keep(members[..n], drop) + if Spares(drop, members[n]) then [members[n]] else []
  }

  /** The principals without the members to be dropped, and without those left empty. */
  function Kept(ps: seq<Principal>, drop: Drop): seq<Principal> {
    if |ps| == 0 then [] else Trimmed(ps[0], drop) + Kept(ps[1..], drop)
  }

  function Trimmed(p: Principal, drop: Drop): seq<Principal> {
    var members := Keep(p.members, drop);
    if |members| > 0 then [Principal(p.id, members)] else []
  }

  /** The pair joins the first principal of that id, or a new one at the end. */
  function Joined(ps: seq<Principal>, id: string, m: Member): seq<Principal> {
    if |ps| == 0 then [Principal(id, [m])]
    else if ps[0].id == id then [ps[0].(members := ps[0].members + [m])] + ps[1..]
    else [ps[0]] + Joined(ps[1..], id, m)
  }

  function Changed(node: Node, c: Command): Node
    requires c.Set?
  {
    node.(target := if c.newTarget.Some? then c.newTarget else node.target,
          executable := if c.newExecutable.Some? then c.newExecutable.value else node.executable,
          priority := if c.newPriority.Some? then c.newPriority.value else node.priority,
          timeout := if c.newTimeout.Some? then c.newTimeout.value else node.timeout)
  }

  function Fresh(c: Command): Node
    requires c.Add?
  {
    Node(c.name, c.nodeId, false, Some(c.address), c.executable, c.priority, c.timeout, true)
  }

  /** Every node of that name replaced. */
  function Replaced(nodes: seq<Node>, name: string, node: Node): (r: seq<Node>)
    ensures |r| == |nodes|
    ensures forall i | 0 <= i < |nodes| :: r[i] == if nodes[i].name == name then node else nodes[i]
  {
    seq(|nodes|, i requires 0 <= i < |nodes| => if nodes[i].name == name then node else nodes[i])
  }

  function Switched(nodes: seq<Node>, name: string, on: bool): (r: seq<Node>)
    ensures |r| == |nodes|
    ensures forall i | 0 <= i < |nodes| :: r[i] == if nodes[i].name == name then nodes[i].(enabled := on) else nodes[i]
  {
    seq(|nodes|, i requires 0 <= i < |nodes| => if nodes[i].name == name then nodes[i].(enabled := on) else nodes[i])
  }

  function Without(nodes: seq<Node>, name: string): seq<Node> {
    if |nodes| == 0 then []
    else if nodes[0].name == name then Without(nodes[1..], name)
    else [nodes[0]] + Without(nodes[1..], name)
  }

  function SetOutcome(c: Config, k: Command): Reply
    requires k.Set?
  {
    var node := NodeOf(c.nodes, k.name);
    if node.None? then Refused(UnknownNode)
    else if k.newTarget.None? && k.newExecutable.None? && k.newPriority.None? && k.newTimeout.None? then
      Refused(NothingSelected)
    else if node.value.local && k.newTarget.Some? then Refused(LocalTarget)
    else Updated(c.(nodes := Replaced(c.nodes, k.name, Changed(node.value, k))))
  }

  function MapOutcome(c: Config, principal: string, name: string, uid: int): Reply {
    var node := NodeOf(c.nodes, name);
    if node.None? then Refused(UnknownNode)
    else
      var pair := Member(node.value.nodeId, uid);
      var holder := Holder(c.principals, pair);
      if holder.None? then Updated(c.(principals := Joined(c.principals, principal, pair)))
      else if holder.value.id == principal then Updated(c)
      else Refused(AlreadyMapped(holder.value.id))
  }

  function UnmapOutcome(c: Config, name: string, uid: int): Reply {
    var node := NodeOf(c.nodes, name);
    if node.None? then Refused(UnknownNode)
    else
      var pair := Member(node.value.nodeId, uid);
      if Times(c.principals, pair) == 0 then Refused(NotMapped)
      else Updated(c.(principals := Kept(c.principals, ByPair(pair))))
  }

  function Outcome(c: Config, k: Command): Reply {
    match k
    case Add(name, _, _, _, _, _) =>
      if NodeOf(c.nodes, name).Some? then Refused(NodeExists)
      else Updated(c.(nodes := c.nodes + [Fresh(k)]))
    case Set(_, _, _, _, _) => SetOutcome(c, k)
    case Remove(name) =>
      var node := NodeOf(c.nodes, name);
      if node.None? then Refused(UnknownNode)
      else Updated(c.(nodes := Without(c.nodes, name), principals := Kept(c.principals, ByNode(node.value.nodeId))))
    case Enable(name, on) =>
      var node := NodeOf(c.nodes, name);
      if node.None? then Refused(UnknownNode)
      else if node.value.enabled == on then Updated(c)
      else Updated(c.(nodes := Switched(c.nodes, name, on)))
    case Map(principal, name, uid) => MapOutcome(c, principal, name, uid)
    case Unmap(name, uid) => UnmapOutcome(c, name, uid)
  }

  // ---------------------------------------------------------------- the loops

  /** One principal's members without the pair, and whether it was among them. */
  method DropMember(members: seq<Member>, pair: Member) returns (left: seq<Member>, removed: bool)
    ensures left == Keep(members, ByPair(pair))
    ensures removed <==> pair in members
  {
    left, removed := [], false;
    for i := 0 to |members|
      invariant left == Keep(members[..i], ByPair(pair))
      invariant removed <==> pair in members[..i]
    {
      assert members[..i + 1][..i] == members[..i];
      if members[i] == pair {
        removed := true;
      } else {
        left := left + [members[i]];
      }
    }
    assert members[..|members|] == members;
  }

  method UnmapPrincipal(c: Config, name: string, uid: int) returns (r: Reply)
    ensures r == UnmapOutcome(c, name, uid)
  {
    var node := NodeOf(c.nodes, name);
    if node.None? {
      return Refused(UnknownNode);
    }
    var pair := Member(node.value.nodeId, uid);
    var updated, removed := [], false;
    for i := 0 to |c.principals|
      invariant updated == Kept(c.principals[..i], ByPair(pair))
      invariant removed <==> Times(c.principals[..i], pair) > 0
    {
      var principal := c.principals[i];
      var members, here := DropMember(principal.members, pair);
      TimesAppend(c.principals[..i], [principal], pair);
      KeptAppend(c.principals[..i], principal, ByPair(pair));
      assert c.principals[..i + 1] == c.principals[..i] + [principal];
      removed := removed || here;
      if |members| > 0 {
        updated := updated + [Principal(principal.id, members)];
      }
    }
    assert c.principals[..|c.principals|] == c.principals;
    if !removed {
      return Refused(NotMapped);
    }
    r := Updated(c.(principals := updated));
  }

  method MapPrincipal(c: Config, principal: string, name: string, uid: int) returns (r: Reply)
    ensures r == MapOutcome(c, principal, name, uid)
  {
    var node := NodeOf(c.nodes, name);
    if node.None? {
      return Refused(UnknownNode);
    }
    var pair := Member(node.value.nodeId, uid);
    var ps := c.principals;
    for i := 0 to |ps|
      invariant Holder(ps, pair) == Holder(ps[i..], pair)
    {
      if pair in ps[i].members {
        if ps[i].id == principal {
          return Updated(c);
        }
        return Refused(AlreadyMapped(ps[i].id));
      }
    }
    var at := 0;
    while at < |ps| && ps[at].id != principal
      invariant 0 <= at <= |ps|
      invariant Joined(ps, principal, pair) == ps[..at] + Joined(ps[at..], principal, pair)
    {
      at := at + 1;
    }
    JoinedAt(c.principals, at, principal, pair);
    if at == |ps| {
      ps := ps + [Principal(principal, [])];
    }
    ps := ps[at := ps[at].(members := ps[at].members + [pair])];
    r := Updated(c.(principals := ps));
  }

  lemma {:induction false} KeptAppend(ps: seq<Principal>, p: Principal, drop: Drop)
    ensures Kept(ps + [p], drop) == Kept(ps, drop) + Trimmed(p, drop)
  {
    if |ps| == 0 {
      KeptStep(p, [], drop);
      assert ps + [p] == [p] + [];
    } else {
      var head, rest := ps[0], ps[1..];
      KeptAppend(rest, p, drop);
      KeptStep(head, rest + [p], drop);
      assert ps + [p] == [head] + (rest + [p]);
      assert Trimmed(head, drop) + (Kept(rest, drop) + Trimmed(p, drop)) ==
             (Trimmed(head, drop) + Kept(rest, drop)) + Trimmed(p, drop);
    }
  }

  lemma JoinedAt(ps: seq<Principal>, at: nat, id: string, m: Member)
    requires at <= |ps| && Joined(ps, id, m) == ps[..at] + Joined(ps[at..], id, m)
    requires at < |ps| ==> ps[at].id == id
    ensures at < |ps| ==> Joined(ps, id, m) == ps[at := ps[at].(members := ps[at].members + [m])]
    ensures at == |ps| ==> Joined(ps, id, m) == (ps + [Principal(id, [])])[at := Principal(id, [] + [m])]
  {
    if at < |ps| {
      assert ps[at..][1..] == ps[at + 1..];
    } else {
      assert [] + [m] == [m];
    }
  }

  // ---------------------------------------------------------------- counting pairs

  lemma {:induction false} TimesAppend(a: seq<Principal>, b: seq<Principal>, m: Member)
    ensures Times(a + b, m) == Times(a, m) + Times(b, m)
  {
    if |a| == 0 {
      assert a + b == b;
    } else {
      TimesAppend(a[1..], b, m);
      assert (a + b)[1..] == a[1..] + b;
    }
  }

  lemma {:induction false} KeepCounts(members: seq<Member>, drop: Drop, m: Member)
    ensures multiset(Keep(members, drop))[m] == if Spares(drop, m) then multiset(members)[m] else 0
  {
    if |members| > 0 {
      var n := |members| - 1;
      KeepCounts(members[..n], drop, m);
      assert members == members[..n] + [members[n]];
    }
  }

  /** Dropping members loses exactly those pairs. */
  lemma {:induction false} KeptCounts(ps: seq<Principal>, drop: Drop, m: Member)
    ensures Times(Kept(ps, drop), m) == if Spares(drop, m) then Times(ps, m) else 0
  {
    if |ps| > 0 {
      KeptCounts(ps[1..], drop, m);
      KeepCounts(ps[0].members, drop, m);
      TimesAppend(Trimmed(ps[0], drop), Kept(ps[1..], drop), m);
    }
  }

  lemma {:induction false} JoinedCounts(ps: seq<Principal>, id: string, pair: Member, m: Member)
    ensures Times(Joined(ps, id, pair), m) == Times(ps, m) + if m == pair then 1 else 0
  {
    if |ps| > 0 && ps[0].id != id {
      JoinedCounts(ps[1..], id, pair, m);
    }
  }

  lemma {:induction false} HolderCounts(ps: seq<Principal>, m: Member)
    ensures Holder(ps, m).Some? <==> Times(ps, m) > 0
  {
    if |ps| > 0 { HolderCounts(ps[1..], m); }
  }

  lemma {:induction false} ListedCounts(ps: seq<Principal>, i: nat, m: Member)
    requires i < |ps| && m in ps[i].members
    ensures Times(ps, m) > 0
  {
    if i > 0 { ListedCounts(ps[1..], i - 1, m); }
  }

  lemma TwiceCounts(members: seq<Member>, a: nat, b: nat)
    requires a < b < |members| && members[a] == members[b]
    ensures multiset(members)[members[a]] >= 2
  {
    assert members == members[..b] + members[b..];
    assert members[..b][a] == members[a] && members[b..][0] == members[a];
  }

  /** A pair counted at most once has at most one place. */
  lemma {:induction false} OneListing(ps: seq<Principal>, i: nat, a: nat, j: nat, b: nat)
    requires i < |ps| && a < |ps[i].members| && j < |ps| && b < |ps[j].members|
    requires ps[i].members[a] == ps[j].members[b] && Times(ps, ps[i].members[a]) <= 1
    ensures i == j && a == b
  {
    var m := ps[i].members[a];
    if i > 0 && j > 0 {
      OneListing(ps[1..], i - 1, a, j - 1, b);
    } else if i > 0 {
      ListedCounts(ps[1..], i - 1, m);
    } else if j > 0 {
      ListedCounts(ps[1..], j - 1, m);
    } else if a != b {
      TwiceCounts(ps[0].members, if a < b then a else b, if a < b then b else a);
    }
  }

  // ---------------------------------------------------------------- invariant

  ghost predicate NamesUnique(nodes: seq<Node>) {
    forall i, j | 0 <= i < j < |nodes| :: nodes[i].name != nodes[j].name
  }

  ghost predicate IdsUnique(nodes: seq<Node>) {
    forall i, j | 0 <= i < j < |nodes| :: nodes[i].nodeId != nodes[j].nodeId
  }

  ghost predicate Known(nodes: seq<Node>, nodeId: string) {
    exists i | 0 <= i < |nodes| :: nodes[i].nodeId == nodeId
  }

  ghost predicate PrincipalsUnique(ps: seq<Principal>) {
    forall i, j | 0 <= i < j < |ps| :: ps[i].id != ps[j].id
  }

  ghost predicate NoneEmpty(ps: seq<Principal>) {
    forall i | 0 <= i < |ps| :: |ps[i].members| > 0
  }

  ghost predicate Invariant(c: Config) {
    && NamesUnique(c.nodes)
    && PrincipalsUnique(c.principals)
    && NoneEmpty(c.principals)
    && (forall m :: Times(c.principals, m) <= 1)
    && (forall m | Times(c.principals, m) > 0 :: Known(c.nodes, m.nodeId))
  }

  ghost predicate HasId(ps: seq<Principal>, id: string) {
    exists i | 0 <= i < |ps| :: ps[i].id == id
  }

  lemma UniqueAfter(p: Principal, rest: seq<Principal>)
    requires PrincipalsUnique(rest) && NoneEmpty(rest) && |p.members| > 0 && !HasId(rest, p.id)
    ensures PrincipalsUnique([p] + rest) && NoneEmpty([p] + rest)
  {
  }

  lemma UniqueHead(ps: seq<Principal>)
    requires |ps| > 0 && PrincipalsUnique(ps)
    ensures PrincipalsUnique(ps[1..]) && !HasId(ps[1..], ps[0].id)
    ensures forall id :: HasId(ps, id) <==> ps[0].id == id || HasId(ps[1..], id)
  {
    forall id | HasId(ps, id) ensures ps[0].id == id || HasId(ps[1..], id) {
      var i :| 0 <= i < |ps| && ps[i].id == id;
      assert i > 0 ==> ps[1..][i - 1].id == id;
    }
    assert forall i | 0 <= i < |ps[1..]| :: ps[1..][i] == ps[i + 1];
  }

  lemma HasIdAppend(a: seq<Principal>, b: seq<Principal>, id: string)
    ensures HasId(a + b, id) <==> HasId(a, id) || HasId(b, id)
  {
    if HasId(a, id) {
      var i :| 0 <= i < |a| && a[i].id == id;
      assert (a + b)[i].id == id;
    }
    if HasId(b, id) {
      var i :| 0 <= i < |b| && b[i].id == id;
      assert (a + b)[|a| + i].id == id;
    }
  }

  lemma {:induction false} KeptShape(ps: seq<Principal>, drop: Drop)
    requires PrincipalsUnique(ps)
    ensures PrincipalsUnique(Kept(ps, drop)) && NoneEmpty(Kept(ps, drop))
    ensures forall id | HasId(Kept(ps, drop), id) :: HasId(ps, id)
  {
    if |ps| > 0 {
      UniqueHead(ps);
      KeptShape(ps[1..], drop);
      var first, rest := Trimmed(ps[0], drop), Kept(ps[1..], drop);
      if |first| == 0 {
        assert first + rest == rest;
      } else {
        UniqueAfter(first[0], rest);
        assert first == [first[0]];
      }
      forall id | HasId(first + rest, id) ensures HasId(ps, id) {
        HasIdAppend(first, rest, id);
      }
    }
  }

  lemma {:induction false} JoinedShape(ps: seq<Principal>, id: string, m: Member)
    requires PrincipalsUnique(ps) && NoneEmpty(ps)
    ensures PrincipalsUnique(Joined(ps, id, m)) && NoneEmpty(Joined(ps, id, m))
    ensures forall x | HasId(Joined(ps, id, m), x) :: x == id || HasId(ps, x)
  {
    if |ps| > 0 {
      UniqueHead(ps);
      var grown := ps[0].(members := ps[0].members + [m]);
      var first := if ps[0].id == id then grown else ps[0];
      var rest := if ps[0].id == id then ps[1..] else Joined(ps[1..], id, m);
      if ps[0].id != id { JoinedShape(ps[1..], id, m); }
      UniqueAfter(first, rest);
      forall x | HasId([first] + rest, x) ensures x == id || HasId(ps, x) {
        HasIdAppend([first], rest, x);
      }
    }
  }

  lemma {:induction false} WithoutHolds(nodes: seq<Node>, name: string, x: Node)
    ensures x in Without(nodes, name) <==> x in nodes && x.name != name
  {
    if |nodes| > 0 { WithoutHolds(nodes[1..], name, x); }
  }

  lemma {:induction false} WithoutNames(nodes: seq<Node>, name: string)
    requires NamesUnique(nodes)
    ensures NamesUnique(Without(nodes, name))
  {
    if |nodes| > 0 {
      WithoutNames(nodes[1..], name);
      var rest := Without(nodes[1..], name);
      forall i | 0 <= i < |rest| ensures rest[i].name != nodes[0].name {
        WithoutHolds(nodes[1..], name, rest[i]);
      }
    }
  }

  lemma NameDecides(nodes: seq<Node>, x: Node, y: Node)
    requires NamesUnique(nodes) && x in nodes && y in nodes && x.name == y.name
    ensures x == y
  {
    var i :| 0 <= i < |nodes| && nodes[i] == x;
    var j :| 0 <= j < |nodes| && nodes[j] == y;
  }

  lemma RemoveKeepsInvariant(c: Config, k: Command)
    requires k.Remove? && Invariant(c) && Outcome(c, k).Updated?
    ensures Invariant(Outcome(c, k).config)
  {
    var d, node := Outcome(c, k).config, NodeOf(c.nodes, k.name).value;
    WithoutNames(c.nodes, k.name);
    KeptShape(c.principals, ByNode(node.nodeId));
    forall m
      ensures Times(d.principals, m) <= 1
      ensures Times(d.principals, m) > 0 ==> Known(d.nodes, m.nodeId)
    {
      KeptCounts(c.principals, ByNode(node.nodeId), m);
      if Times(d.principals, m) > 0 {
        var i :| 0 <= i < |c.nodes| && c.nodes[i].nodeId == m.nodeId;
        if c.nodes[i].name == k.name { NameDecides(c.nodes, c.nodes[i], node); }
        WithoutHolds(c.nodes, k.name, c.nodes[i]);
      }
    }
  }

  lemma UnmapKeepsInvariant(c: Config, k: Command)
    requires k.Unmap? && Invariant(c) && Outcome(c, k).Updated?
    ensures Invariant(Outcome(c, k).config)
  {
    var d := Outcome(c, k).config;
    var pair := Member(NodeOf(c.nodes, k.node).value.nodeId, k.uid);
    KeptShape(c.principals, ByPair(pair));
    assert d.nodes == c.nodes;
    forall m
      ensures Times(d.principals, m) <= 1
      ensures Times(d.principals, m) > 0 ==> Known(d.nodes, m.nodeId)
    {
      KeptCounts(c.principals, ByPair(pair), m);
      assert Times(c.principals, m) <= 1;
    }
  }

  lemma MapKeepsInvariant(c: Config, k: Command)
    requires k.Map? && Invariant(c) && Outcome(c, k).Updated?
    ensures Invariant(Outcome(c, k).config)
  {
    var d, node := Outcome(c, k).config, NodeOf(c.nodes, k.node).value;
    var pair := Member(node.nodeId, k.uid);
    HolderCounts(c.principals, pair);
    if Holder(c.principals, pair).None? {
      JoinedShape(c.principals, k.principal, pair);
      assert Known(c.nodes, pair.nodeId);
      forall m
        ensures Times(d.principals, m) == Times(c.principals, m) + if m == pair then 1 else 0
      {
        JoinedCounts(c.principals, k.principal, pair, m);
      }
    }
  }

  /** Nodes changed in place, name and id kept. */
  lemma SameNodesKeepInvariant(c: Config, d: Config)
    requires Invariant(c) && d.principals == c.principals && |d.nodes| == |c.nodes|
    requires forall i | 0 <= i < |c.nodes| ::
      d.nodes[i].name == c.nodes[i].name && d.nodes[i].nodeId == c.nodes[i].nodeId
    ensures Invariant(d)
  {
    forall m: Member | Times(d.principals, m) > 0 ensures Known(d.nodes, m.nodeId) {
      assert Known(c.nodes, m.nodeId);
      var i :| 0 <= i < |c.nodes| && c.nodes[i].nodeId == m.nodeId;
      assert d.nodes[i].nodeId == m.nodeId;
    }
  }

  lemma AddKeepsInvariant(c: Config, k: Command)
    requires k.Add? && Invariant(c) && Outcome(c, k).Updated?
    ensures Invariant(Outcome(c, k).config)
  {
    var d := Outcome(c, k).config;
    forall m: Member | Times(d.principals, m) > 0 ensures Known(d.nodes, m.nodeId) {
      assert Known(c.nodes, m.nodeId);
      var i :| 0 <= i < |c.nodes| && c.nodes[i].nodeId == m.nodeId;
      assert d.nodes[i].nodeId == m.nodeId;
    }
  }

  /** `set` changes one node and leaves its place, name, id and transport. */
  lemma SetKeepsIdentity(c: Config, k: Command)
    requires k.Set? && Invariant(c) && Outcome(c, k).Updated?
    ensures var d := Outcome(c, k).config;
      && d.principals == c.principals && |d.nodes| == |c.nodes|
      && forall i | 0 <= i < |c.nodes| ::
           && d.nodes[i].name == c.nodes[i].name
           && d.nodes[i].nodeId == c.nodes[i].nodeId
           && d.nodes[i].local == c.nodes[i].local
           && d.nodes[i].enabled == c.nodes[i].enabled
           && (c.nodes[i].name != k.name ==> d.nodes[i] == c.nodes[i])
  {
    var node := NodeOf(c.nodes, k.name).value;
    forall i | 0 <= i < |c.nodes| && c.nodes[i].name == k.name ensures c.nodes[i] == node {
      NameDecides(c.nodes, c.nodes[i], node);
    }
  }

  lemma OutcomeKeepsInvariant(c: Config, k: Command)
    requires Invariant(c) && Outcome(c, k).Updated?
    ensures Invariant(Outcome(c, k).config)
  {
    match k
    case Add(_, _, _, _, _, _) => AddKeepsInvariant(c, k);
    case Set(_, _, _, _, _) => SetKeepsIdentity(c, k); SameNodesKeepInvariant(c, Outcome(c, k).config);
    case Remove(_) => RemoveKeepsInvariant(c, k);
    case Enable(_, _) => SameNodesKeepInvariant(c, Outcome(c, k).config);
    case Map(_, _, _) => MapKeepsInvariant(c, k);
    case Unmap(_, _) => UnmapKeepsInvariant(c, k);
  }

  // ---------------------------------------------------------------- what each command does

  ghost predicate Named(nodes: seq<Node>, i: int, name: string) {
    0 <= i < |nodes| && nodes[i].name == name
  }

  /** Some principal lists the pair. */
  ghost predicate Mapped(ps: seq<Principal>, m: Member) {
    exists j | 0 <= j < |ps| :: m in ps[j].members
  }

  /** Some principal of another id lists the pair. */
  ghost predicate MappedElsewhere(ps: seq<Principal>, m: Member, id: string) {
    exists j | 0 <= j < |ps| :: m in ps[j].members && ps[j].id != id
  }

  /** When a command is refused: `c` knows no such node, or has what should be new, or nothing or too much is asked. */
  ghost predicate Refuses(c: Config, k: Command) {
    match k
    case Add(name, _, _, _, _, _) => exists i :: Named(c.nodes, i, name)
    case Set(name, target, executable, priority, timeout) =>
      || (forall i :: !Named(c.nodes, i, name))
      || (target == None && executable == None && priority == None && timeout == None)
      || (target.Some? && exists i :: Named(c.nodes, i, name) && c.nodes[i].local)
    case Remove(name) => forall i :: !Named(c.nodes, i, name)
    case Enable(name, _) => forall i :: !Named(c.nodes, i, name)
    case Map(principal, name, uid) =>
      || (forall i :: !Named(c.nodes, i, name))
      || exists i :: Named(c.nodes, i, name) && MappedElsewhere(c.principals, Member(c.nodes[i].nodeId, uid), principal)
    case Unmap(name, uid) =>
      || (forall i :: !Named(c.nodes, i, name))
      || exists i :: Named(c.nodes, i, name) && !Mapped(c.principals, Member(c.nodes[i].nodeId, uid))
  }

  lemma TheNode(c: Config, name: string) returns (i: nat)
    requires NamesUnique(c.nodes) && NodeOf(c.nodes, name).Some?
    ensures Named(c.nodes, i, name) && c.nodes[i] == NodeOf(c.nodes, name).value
    ensures forall k :: Named(c.nodes, k, name) ==> k == i
  {
    var node := NodeOf(c.nodes, name).value;
    i :| 0 <= i < |c.nodes| && c.nodes[i] == node;
  }

  lemma NoSuchNode(c: Config, name: string)
    ensures NodeOf(c.nodes, name).None? <==> forall i :: !Named(c.nodes, i, name)
  {
    if NodeOf(c.nodes, name).Some? {
      var i :| 0 <= i < |c.nodes| && c.nodes[i].name == name;
      assert Named(c.nodes, i, name);
    }
  }

  /** A pair listed at most once is held by the one principal that lists it. */
  lemma {:induction false} TheHolder(ps: seq<Principal>, m: Member, j: nat)
    requires Times(ps, m) <= 1 && j < |ps| && m in ps[j].members
    ensures Holder(ps, m) == Some(ps[j])
  {
    if j > 0 {
      ListedCounts(ps[1..], j - 1, m);
      TheHolder(ps[1..], m, j - 1);
    }
  }

  lemma {:induction false} MappedIff(ps: seq<Principal>, m: Member)
    ensures Mapped(ps, m) <==> Times(ps, m) > 0
  {
    if Mapped(ps, m) {
      var j :| 0 <= j < |ps| && m in ps[j].members;
      ListedCounts(ps, j, m);
    }
    if Times(ps, m) > 0 {
      HolderCounts(ps, m);
      var j :| 0 <= j < |ps| && ps[j] == Holder(ps, m).value;
    }
  }

  lemma HolderOrNot(ps: seq<Principal>, m: Member, id: string)
    requires Times(ps, m) <= 1
    ensures MappedElsewhere(ps, m, id) <==> Holder(ps, m).Some? && Holder(ps, m).value.id != id
  {
    if MappedElsewhere(ps, m, id) {
      var j :| 0 <= j < |ps| && m in ps[j].members && ps[j].id != id;
      TheHolder(ps, m, j);
    }
    if Holder(ps, m).Some? {
      var j :| 0 <= j < |ps| && ps[j] == Holder(ps, m).value;
    }
  }

  lemma MapRefusedIff(c: Config, principal: string, name: string, uid: int)
    requires Invariant(c)
    ensures MapOutcome(c, principal, name, uid).Refused? <==> Refuses(c, Map(principal, name, uid))
  {
    NoSuchNode(c, name);
    if NodeOf(c.nodes, name).Some? {
      var i := TheNode(c, name);
      var pair := Member(c.nodes[i].nodeId, uid);
      assert Times(c.principals, pair) <= 1;
      HolderOrNot(c.principals, pair, principal);
    }
  }

  lemma UnmapRefusedIff(c: Config, name: string, uid: int)
    requires Invariant(c)
    ensures UnmapOutcome(c, name, uid).Refused? <==> Refuses(c, Unmap(name, uid))
  {
    NoSuchNode(c, name);
    if NodeOf(c.nodes, name).Some? {
      var i := TheNode(c, name);
      var pair := Member(c.nodes[i].nodeId, uid);
      MappedIff(c.principals, pair);
    }
  }

  /** A command is refused exactly for these reasons. */
  lemma RefusedIff(c: Config, k: Command)
    requires Invariant(c)
    ensures Outcome(c, k).Refused? <==> Refuses(c, k)
  {
    match k
    case Add(name, _, _, _, _, _) => NoSuchNode(c, name);
    case Set(name, _, _, _, _) =>
      NoSuchNode(c, name);
      if NodeOf(c.nodes, name).Some? { var i := TheNode(c, name); }
    case Remove(name) => NoSuchNode(c, name);
    case Enable(name, _) => NoSuchNode(c, name);
    case Map(principal, name, uid) => MapRefusedIff(c, principal, name, uid);
    case Unmap(name, uid) => UnmapRefusedIff(c, name, uid);
  }

  lemma {:induction false} JoinedHolder(ps: seq<Principal>, id: string, m: Member)
    requires Times(ps, m) == 0
    ensures Holder(Joined(ps, id, m), m).Some? && Holder(Joined(ps, id, m), m).value.id == id
  {
    if |ps| > 0 {
      HolderCounts(ps, m);
      if ps[0].id != id { JoinedHolder(ps[1..], id, m); }
    }
  }

  /** `map` leaves the pair with the principal asked for, and every other pair as it was. */
  lemma MapStores(c: Config, principal: string, name: string, uid: int, i: nat, m: Member)
    requires Invariant(c) && Named(c.nodes, i, name) && MapOutcome(c, principal, name, uid).Updated?
    ensures var d, pair := MapOutcome(c, principal, name, uid).config, Member(c.nodes[i].nodeId, uid);
      && d.nodes == c.nodes
      && Holder(d.principals, pair).Some? && Holder(d.principals, pair).value.id == principal
      && Times(d.principals, pair) == 1
      && (m != pair ==> Times(d.principals, m) == Times(c.principals, m))
  {
    var at := TheNode(c, name);
    assert at == i;
    var pair := Member(c.nodes[i].nodeId, uid);
    HolderCounts(c.principals, pair);
    assert Times(c.principals, pair) <= 1;
    if Times(c.principals, pair) == 0 {
      JoinedHolder(c.principals, principal, pair);
      JoinedCounts(c.principals, principal, pair, pair);
      JoinedCounts(c.principals, principal, pair, m);
    }
  }

  /** `add` puts one enabled node behind the others, reached at the address and with the executable given. */
  lemma AddStores(c: Config, k: Command)
    requires k.Add? && Outcome(c, k).Updated?
    ensures var d := Outcome(c, k).config;
      && d.principals == c.principals && |d.nodes| == |c.nodes| + 1 && d.nodes[..|c.nodes|] == c.nodes
      && var node := d.nodes[|c.nodes|];
         && node.name == k.name && node.nodeId == k.nodeId && !node.local && node.enabled
         && node.target == Some(k.address) && node.executable == k.executable
         && node.priority == k.priority && node.timeout == k.timeout
  {
  }

  /** `set` stores each field that is asked for and keeps each that is not. */
  lemma SetStores(c: Config, k: Command, i: nat)
    requires k.Set? && Invariant(c) && Outcome(c, k).Updated? && Named(c.nodes, i, k.name)
    ensures var d := Outcome(c, k).config;
      && i < |d.nodes|
      && d.nodes[i].target == (if k.newTarget.Some? then k.newTarget else c.nodes[i].target)
      && d.nodes[i].executable == (if k.newExecutable.Some? then k.newExecutable.value else c.nodes[i].executable)
      && d.nodes[i].priority == (if k.newPriority.Some? then k.newPriority.value else c.nodes[i].priority)
      && d.nodes[i].timeout == (if k.newTimeout.Some? then k.newTimeout.value else c.nodes[i].timeout)
  {
    var at := TheNode(c, k.name);
    assert at == i;
  }

  /** `enable` and `disable` leave the node in that state and touch nothing else. */
  lemma EnableStores(c: Config, k: Command, i: nat)
    requires k.Enable? && Invariant(c) && Outcome(c, k).Updated? && Named(c.nodes, i, k.name)
    ensures Outcome(c, k).config == c.(nodes := c.nodes[i := c.nodes[i].(enabled := k.on)])
  {
    var at := TheNode(c, k.name);
    assert at == i;
    var d := Outcome(c, k).config;
    forall j | 0 <= j < |c.nodes| && j != i ensures c.nodes[j].name != k.name {
      assert !Named(c.nodes, j, k.name);
    }
    assert d.nodes == c.nodes[i := c.nodes[i].(enabled := k.on)];
  }

  lemma {:induction false} WithoutAt(nodes: seq<Node>, i: nat)
    requires NamesUnique(nodes) && i < |nodes|
    ensures Without(nodes, nodes[i].name) == nodes[..i] + nodes[i + 1..]
  {
    if i == 0 {
      WithoutNobody(nodes[1..], nodes[0].name);
    } else {
      WithoutAt(nodes[1..], i - 1);
      assert nodes[..i] + nodes[i + 1..] == [nodes[0]] + (nodes[1..][..i - 1] + nodes[1..][i..]);
    }
  }

  lemma {:induction false} WithoutNobody(nodes: seq<Node>, name: string)
    requires forall i | 0 <= i < |nodes| :: nodes[i].name != name
    ensures Without(nodes, name) == nodes
  {
    if |nodes| > 0 {
      WithoutNobody(nodes[1..], name);
      assert nodes == [nodes[0]] + nodes[1..];
    }
  }

  /** `remove` takes out that node and every pair on it, and nothing else. */
  lemma RemoveStores(c: Config, k: Command, i: nat, m: Member)
    requires k.Remove? && Invariant(c) && Outcome(c, k).Updated? && Named(c.nodes, i, k.name)
    ensures var d := Outcome(c, k).config;
      && d.nodes == c.nodes[..i] + c.nodes[i + 1..]
      && Times(d.principals, m) == if m.nodeId == c.nodes[i].nodeId then 0 else Times(c.principals, m)
  {
    var at := TheNode(c, k.name);
    assert at == i;
    WithoutAt(c.nodes, i);
    KeptCounts(c.principals, ByNode(c.nodes[i].nodeId), m);
  }

  // ---------------------------------------------------------------- runs

  /** A command and whether its result was confirmed and written. */
  datatype Entered = Entered(command: Command, written: bool)

  function Run(c: Config, entered: seq<Entered>): Config {
    if |entered| == 0 then c
    else
      var before := Run(c, entered[..|entered| - 1]);
      var last := entered[|entered| - 1];
      var r := Outcome(before, last.command);
      if last.written && r.Updated? then r.config else before
  }

  lemma {:induction false} RunKeepsCatalogue(c: Config, entered: seq<Entered>)
    requires Invariant(c)
    ensures Invariant(Run(c, entered))
  {
    if |entered| > 0 {
      var before := Run(c, entered[..|entered| - 1]);
      var k := entered[|entered| - 1].command;
      RunKeepsCatalogue(c, entered[..|entered| - 1]);
      if Outcome(before, k).Updated? { OutcomeKeepsInvariant(before, k); }
    }
  }

  // ---------------------------------------------------------------- map, then unmap

  lemma {:induction false} KeepAll(members: seq<Member>, pair: Member)
    requires pair !in members
    ensures Keep(members, ByPair(pair)) == members
  {
    if |members| > 0 {
      var n := |members| - 1;
      KeepAll(members[..n], pair);
      assert members == members[..n] + [members[n]];
    }
  }

  lemma TrimmedAll(p: Principal, pair: Member)
    requires |p.members| > 0 && pair !in p.members
    ensures Trimmed(p, ByPair(pair)) == [p]
  {
    KeepAll(p.members, pair);
  }

  lemma KeptStep(head: Principal, rest: seq<Principal>, drop: Drop)
    ensures Kept([head] + rest, drop) == Trimmed(head, drop) + Kept(rest, drop)
  {
    assert ([head] + rest)[1..] == rest;
  }

  lemma HeadOf(ps: seq<Principal>, pair: Member)
    requires |ps| > 0 && NoneEmpty(ps) && Times(ps, pair) == 0
    ensures ps == [ps[0]] + ps[1..]
    ensures pair !in ps[0].members && |ps[0].members| > 0
    ensures NoneEmpty(ps[1..]) && Times(ps[1..], pair) == 0
  {
  }

  lemma {:induction false} KeptAll(ps: seq<Principal>, pair: Member)
    requires NoneEmpty(ps) && Times(ps, pair) == 0
    ensures Kept(ps, ByPair(pair)) == ps
  {
    if |ps| > 0 {
      HeadOf(ps, pair);
      var head, rest := ps[0], ps[1..];
      KeptStep(head, rest, ByPair(pair));
      TrimmedAll(head, pair);
      KeptAll(rest, pair);
    }
  }

  lemma DropsLast(members: seq<Member>, pair: Member)
    requires pair !in members
    ensures Keep(members + [pair], ByPair(pair)) == members
  {
    KeepAll(members, pair);
    assert (members + [pair])[..|members|] == members;
  }

  lemma GrownThenDropped(p: Principal, pair: Member)
    requires |p.members| > 0 && pair !in p.members
    ensures Trimmed(p.(members := p.members + [pair]), ByPair(pair)) == [p]
  {
    DropsLast(p.members, pair);
  }

  lemma {:induction false} JoinThenDrop(ps: seq<Principal>, id: string, pair: Member)
    requires NoneEmpty(ps) && Times(ps, pair) == 0
    ensures Kept(Joined(ps, id, pair), ByPair(pair)) == ps
  {
    if |ps| == 0 {
      DropsLast([], pair);
      assert [] + [pair] == [pair];
    } else {
      HeadOf(ps, pair);
      var head, rest := ps[0], ps[1..];
      if head.id == id {
        GrownThenDropped(head, pair);
        KeptStep(head.(members := head.members + [pair]), rest, ByPair(pair));
        KeptAll(rest, pair);
      } else {
        TrimmedAll(head, pair);
        JoinThenDrop(rest, id, pair);
        KeptStep(head, Joined(rest, id, pair), ByPair(pair));
      }
    }
  }

  lemma FreshMapJoins(c: Config, principal: string, name: string, uid: int, pair: Member)
    requires NodeOf(c.nodes, name).Some? && pair == Member(NodeOf(c.nodes, name).value.nodeId, uid)
    requires Times(c.principals, pair) == 0
    ensures MapOutcome(c, principal, name, uid) == Updated(c.(principals := Joined(c.principals, principal, pair)))
  {
    HolderCounts(c.principals, pair);
  }

  /** Mapping a pair nobody holds and unmapping it again gives back the very same catalogue. */
  lemma UnmapUndoesMap(c: Config, principal: string, name: string, uid: int)
    requires NoneEmpty(c.principals) && NodeOf(c.nodes, name).Some?
    requires Times(c.principals, Member(NodeOf(c.nodes, name).value.nodeId, uid)) == 0
    ensures MapOutcome(c, principal, name, uid).Updated?
    ensures UnmapOutcome(MapOutcome(c, principal, name, uid).config, name, uid) == Updated(c)
  {
    var pair := Member(NodeOf(c.nodes, name).value.nodeId, uid);
    FreshMapJoins(c, principal, name, uid, pair);
    var joined := Joined(c.principals, principal, pair);
    JoinedCounts(c.principals, principal, pair, pair);
    JoinThenDrop(c.principals, principal, pair);
    assert c.(principals := joined).(principals := c.principals) == c;
  }

  // ---------------------------------------------------------------- the check before writing

  const MAX_NODES := 128

  /** The text formats a node or a principal must have, and the id of this machine. */
  datatype Formats = Formats(
    name: string -> bool, nodeId: string -> bool, target: string -> bool, executable: string -> bool, machine: string)

  predicate FieldsOk(f: Formats, node: Node) {
    && f.name(node.name)
    && f.nodeId(node.nodeId)
    && (if node.local then node.target.None? && node.nodeId == f.machine
        else node.target.Some? && f.target(node.target.value))
    && f.executable(node.executable)
    && 0 <= node.priority <= 1_000_000
    && 1.0 <= node.timeout <= 300.0
  }

  ghost predicate NodesOk(f: Formats, nodes: seq<Node>) {
    && 1 <= |nodes| <= MAX_NODES
    && (forall i | 0 <= i < |nodes| :: FieldsOk(f, nodes[i]))
    && IdsUnique(nodes)
    && forall i, j | 0 <= i < j < |nodes| :: !(nodes[i].local && nodes[j].local)
  }

  ghost predicate PrincipalsOk(f: Formats, ps: seq<Principal>) {
    && (forall id | HasId(ps, id) :: f.name(id))
    && forall m | Times(ps, m) > 0 :: m.uid >= 0
  }

  /** What a catalogue must satisfy to be read back. */
  ghost predicate Readable(f: Formats, c: Config) {
    Invariant(c) && NodesOk(f, c.nodes) && PrincipalsOk(f, c.principals)
  }

  /** What the caller of a command must get right for its result to be readable. */
  ghost predicate Admitted(f: Formats, c: Config, k: Command) {
    match k
    case Add(_, nodeId, _, _, _, _) => |c.nodes| < MAX_NODES && !Known(c.nodes, nodeId) && FieldsOk(f, Fresh(k))
    case Set(name, _, _, _, _) => NodeOf(c.nodes, name).Some? ==> FieldsOk(f, Changed(NodeOf(c.nodes, name).value, k))
    case Remove(_) => |c.nodes| > 1
    case Enable(_, _) => true
    case Map(principal, _, uid) => f.name(principal) && uid >= 0
    case Unmap(_, _) => true
  }

  /**
   The check before writing refuses a command's result exactly for what the caller entered; unmapping and switching
   never fail it.
   */
  lemma WriteRefusedIff(f: Formats, c: Config, k: Command)
    requires Readable(f, c) && Outcome(c, k).Updated?
    ensures Readable(f, Outcome(c, k).config) <==> Admitted(f, c, k)
  {
    OutcomeKeepsInvariant(c, k);
    match k
    case Add(_, _, _, _, _, _) => AddReadable(f, c, k);
    case Set(_, _, _, _, _) => SetReadable(f, c, k);
    case Remove(_) => RemoveReadable(f, c, k);
    case Enable(_, _) => EnableReadable(f, c, k);
    case Map(_, _, _) => MapReadable(f, c, k);
    case Unmap(_, _) => UnmapReadable(f, c, k);
  }

  lemma EnableReadable(f: Formats, c: Config, k: Command)
    requires k.Enable? && NodesOk(f, c.nodes) && Outcome(c, k).Updated?
    ensures NodesOk(f, Outcome(c, k).config.nodes) && Outcome(c, k).config.principals == c.principals
  {
    var nodes := Outcome(c, k).config.nodes;
    assert forall i | 0 <= i < |nodes| :: nodes[i] == c.nodes[i].(enabled := nodes[i].enabled);
  }

  lemma UnmapReadable(f: Formats, c: Config, k: Command)
    requires k.Unmap? && Readable(f, c) && Outcome(c, k).Updated?
    ensures Outcome(c, k).config.nodes == c.nodes && PrincipalsOk(f, Outcome(c, k).config.principals)
  {
    DropReadable(f, c.principals, ByPair(Member(NodeOf(c.nodes, k.node).value.nodeId, k.uid)));
  }

  lemma AddReadable(f: Formats, c: Config, k: Command)
    requires k.Add? && NodesOk(f, c.nodes) && Outcome(c, k).Updated?
    ensures NodesOk(f, Outcome(c, k).config.nodes) <==> Admitted(f, c, k)
  {
    var nodes := c.nodes + [Fresh(k)];
    if NodesOk(f, nodes) {
      assert FieldsOk(f, nodes[|c.nodes|]);
      forall i | 0 <= i < |c.nodes| ensures c.nodes[i].nodeId != k.nodeId {
        assert nodes[i].nodeId != nodes[|c.nodes|].nodeId;
      }
    }
  }

  lemma SetReadable(f: Formats, c: Config, k: Command)
    requires k.Set? && Invariant(c) && NodesOk(f, c.nodes) && Outcome(c, k).Updated?
    ensures NodesOk(f, Outcome(c, k).config.nodes) <==> Admitted(f, c, k)
  {
    SetKeepsIdentity(c, k);
    var node, nodes := NodeOf(c.nodes, k.name).value, Outcome(c, k).config.nodes;
    var i :| 0 <= i < |c.nodes| && c.nodes[i] == node;
    assert nodes[i] == Changed(node, k);
  }

  lemma {:induction false} WithoutNone(nodes: seq<Node>, name: string)
    requires forall i | 0 <= i < |nodes| :: nodes[i].name != name
    ensures |Without(nodes, name)| == |nodes|
  {
    if |nodes| > 0 { WithoutNone(nodes[1..], name); }
  }

  lemma {:induction false} WithoutLength(nodes: seq<Node>, at: nat)
    requires NamesUnique(nodes) && at < |nodes|
    ensures |Without(nodes, nodes[at].name)| == |nodes| - 1
  {
    if at == 0 {
      WithoutNone(nodes[1..], nodes[0].name);
    } else {
      WithoutLength(nodes[1..], at - 1);
    }
  }

  lemma {:induction false} WithoutIds(nodes: seq<Node>, name: string)
    requires IdsUnique(nodes)
    ensures IdsUnique(Without(nodes, name))
  {
    if |nodes| > 0 {
      WithoutIds(nodes[1..], name);
      var rest := Without(nodes[1..], name);
      forall i | 0 <= i < |rest| ensures rest[i].nodeId != nodes[0].nodeId {
        WithoutHolds(nodes[1..], name, rest[i]);
      }
    }
  }

  lemma RemainingOk(f: Formats, nodes: seq<Node>, at: nat)
    requires NamesUnique(nodes) && NodesOk(f, nodes) && at < |nodes|
    ensures NodesOk(f, Without(nodes, nodes[at].name)) <==> |nodes| > 1
  {
    var left := Without(nodes, nodes[at].name);
    WithoutLength(nodes, at);
    WithoutIds(nodes, nodes[at].name);
    forall i | 0 <= i < |left| ensures FieldsOk(f, left[i]) {
      WithoutHolds(nodes, nodes[at].name, left[i]);
    }
  }

  lemma RemoveReadable(f: Formats, c: Config, k: Command)
    requires k.Remove? && Readable(f, c) && Outcome(c, k).Updated?
    ensures PrincipalsOk(f, Outcome(c, k).config.principals)
    ensures NodesOk(f, Outcome(c, k).config.nodes) <==> Admitted(f, c, k)
  {
    var at :| 0 <= at < |c.nodes| && c.nodes[at].name == k.name;
    RemainingOk(f, c.nodes, at);
    DropReadable(f, c.principals, ByNode(NodeOf(c.nodes, k.name).value.nodeId));
  }

  lemma DropReadable(f: Formats, ps: seq<Principal>, drop: Drop)
    requires PrincipalsUnique(ps) && PrincipalsOk(f, ps)
    ensures PrincipalsOk(f, Kept(ps, drop))
  {
    KeptShape(ps, drop);
    forall m | Times(Kept(ps, drop), m) > 0 ensures m.uid >= 0 {
      KeptCounts(ps, drop, m);
    }
  }

  lemma {:induction false} JoinedHasId(ps: seq<Principal>, id: string, m: Member)
    ensures HasId(Joined(ps, id, m), id)
  {
    var joined := Joined(ps, id, m);
    if |ps| == 0 || ps[0].id == id {
      assert joined[0].id == id;
    } else {
      JoinedHasId(ps[1..], id, m);
      var i :| 0 <= i < |joined[1..]| && joined[1..][i].id == id;
      assert joined[i + 1].id == id;
    }
  }

  lemma MapReadable(f: Formats, c: Config, k: Command)
    requires k.Map? && Readable(f, c) && Outcome(c, k).Updated?
    ensures PrincipalsOk(f, Outcome(c, k).config.principals) <==> Admitted(f, c, k)
  {
    var ps, pair := c.principals, Member(NodeOf(c.nodes, k.node).value.nodeId, k.uid);
    HolderCounts(ps, pair);
    if Holder(ps, pair).None? {
      JoinedShape(ps, k.principal, pair);
      JoinedHasId(ps, k.principal, pair);
      JoinedCounts(ps, k.principal, pair, pair);
      forall m ensures Times(Joined(ps, k.principal, pair), m) == Times(ps, m) + if m == pair then 1 else 0 {
        JoinedCounts(ps, k.principal, pair, m);
      }
    } else {
      assert HasId(ps, k.principal);
    }
  }
}
