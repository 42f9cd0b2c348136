/**
  Basic scopes and the access decision (`pkg/access/scope/basic/basic.go`, `pkg/access/access.go`):
  a scope expands to label lists, the allowed ones are inserted in a tree and the requested ones
  looked up. The decision is proved to mean component-wise coverage by a single allowed scope.
 */
module Scopes {
  import opened Trie

  datatype Scope = Scope(actions: seq<string>, environments: seq<string>, teams: seq<string>, roles: seq<string>)

  // ---- AsLabels -------------------------------------------------------------------------

  /** What a loop collects that appends `part(0)`, `part(1)` and so on. */
  function Flat(n: nat, part: nat -> seq<Labels>): seq<Labels> {
    if n == 0 then [] else Flat(n - 1, part) + part(n - 1)
  }

  lemma {:induction false} FlatMember(n: nat, part: nat -> seq<Labels>, l: Labels)
    ensures l in Flat(n, part) <==> exists i: nat :: i < n && l in part(i)
  {
    if n > 0 {
      FlatMember(n - 1, part, l);
    }
  }

  function RoleLabels(s: Scope, team: string, env: string, action: string): nat -> seq<Labels> {
    (r: nat) => if r < |s.roles| then [[team, env, action, s.roles[r]]] else []
  }

  /** One list for every role, or one without a role. */
  function OneAction(s: Scope, team: string, env: string, action: string): seq<Labels> {
    if s.roles != [] then Flat(|s.roles|, RoleLabels(s, team, env, action)) else [[team, env, action]]
  }

  function ActionLabels(s: Scope, team: string, env: string): nat -> seq<Labels> {
    (a: nat) => if a < |s.actions| then OneAction(s, team, env, s.actions[a]) else []
  }

  function EnvironmentLabels(s: Scope, team: string): nat -> seq<Labels> {
    (e: nat) => if e < |s.environments| then Flat(|s.actions|, ActionLabels(s, team, s.environments[e])) else []
  }

  function TeamLabels(s: Scope): nat -> seq<Labels> {
    (t: nat) => if t < |s.teams| then Flat(|s.environments|, EnvironmentLabels(s, s.teams[t])) else []
  }

  /** The label lists of a scope, in the order the nested loops produce them. */
  function LabelsOf(s: Scope): seq<Labels> {
    Flat(|s.teams|, TeamLabels(s))
  }

  method AsLabels(s: Scope) returns (allowed: seq<Labels>)
    ensures allowed == LabelsOf(s)
  {
    allowed := [];
    for t := 0 to |s.teams|
      invariant allowed == Flat(t, TeamLabels(s))
    {
      allowed := AppendTeam(s, s.teams[t], allowed);
    }
  }

  lemma FlatNext(soFar: seq<Labels>, n: nat, part: nat -> seq<Labels>)
    ensures soFar + Flat(n, part) + part(n) == soFar + Flat(n + 1, part)
  {}

  /** The loop over the environments of one team. */
  method AppendTeam(s: Scope, team: string, soFar: seq<Labels>) returns (allowed: seq<Labels>)
    ensures allowed == soFar + Flat(|s.environments|, EnvironmentLabels(s, team))
  {
    allowed := soFar;
    for e := 0 to |s.environments|
      invariant allowed == soFar + Flat(e, EnvironmentLabels(s, team))
    {
      allowed := AppendEnvironment(s, team, s.environments[e], allowed);
      FlatNext(soFar, e, EnvironmentLabels(s, team));
    }
  }

  /** The loop over the actions of one environment. */
  method AppendEnvironment(s: Scope, team: string, env: string, soFar: seq<Labels>) returns (allowed: seq<Labels>)
    ensures allowed == soFar + Flat(|s.actions|, ActionLabels(s, team, env))
  {
    allowed := soFar;
    for a := 0 to |s.actions|
      invariant allowed == soFar + Flat(a, ActionLabels(s, team, env))
    {
      allowed := AppendRoles(s, team, env, s.actions[a], allowed);
      FlatNext(soFar, a, ActionLabels(s, team, env));
    }
  }

  /** The innermost branch. */
  method AppendRoles(s: Scope, team: string, env: string, action: string, soFar: seq<Labels>)
    returns (allowed: seq<Labels>)
    ensures allowed == soFar + OneAction(s, team, env, action)
  {
    allowed := soFar;
    if |s.roles| > 0 {
      for r := 0 to |s.roles|
        invariant allowed == soFar + Flat(r, RoleLabels(s, team, env, action))
      {
        allowed := allowed + [[team, env, action, s.roles[r]]];
      }
    } else {
      allowed := allowed + [[team, env, action]];
    }
  }

  /** The labels name one of these teams and so on; the role is left out when the scope names none. */
  ghost predicate Row(s: Scope, l: Labels, teams: seq<string>, envs: seq<string>, actions: seq<string>) {
    && |l| == (if s.roles == [] then 3 else 4)
    && l[0] in teams && l[1] in envs && l[2] in actions && (s.roles != [] ==> l[3] in s.roles)
  }

  /** One choice per component. */
  ghost predicate Combination(s: Scope, l: Labels) {
    Row(s, l, s.teams, s.environments, s.actions)
  }

  lemma OneActionMembers(s: Scope, team: string, env: string, action: string, l: Labels)
    ensures l in OneAction(s, team, env, action) <==> Row(s, l, [team], [env], [action])
  {
    if s.roles != [] {
      FlatMember(|s.roles|, RoleLabels(s, team, env, action), l);
      if Row(s, l, [team], [env], [action]) {
        var r :| 0 <= r < |s.roles| && s.roles[r] == l[3];
        assert l == [team, env, action, s.roles[r]];
        assert l in RoleLabels(s, team, env, action)(r);
      }
    } else {
      assert |l| == 3 ==> l == [l[0], l[1], l[2]];
    }
  }

  lemma ActionMembers(s: Scope, team: string, env: string, l: Labels)
    ensures l in Flat(|s.actions|, ActionLabels(s, team, env)) <==> Row(s, l, [team], [env], s.actions)
  {
    FlatMember(|s.actions|, ActionLabels(s, team, env), l);
    forall a: nat | a < |s.actions|
      ensures l in ActionLabels(s, team, env)(a) <==> Row(s, l, [team], [env], [s.actions[a]])
    {
      OneActionMembers(s, team, env, s.actions[a], l);
    }
  }

  lemma EnvironmentMembers(s: Scope, team: string, l: Labels)
    ensures l in Flat(|s.environments|, EnvironmentLabels(s, team)) <==> Row(s, l, [team], s.environments, s.actions)
  {
    FlatMember(|s.environments|, EnvironmentLabels(s, team), l);
    forall e: nat | e < |s.environments|
      ensures l in EnvironmentLabels(s, team)(e) <==> Row(s, l, [team], [s.environments[e]], s.actions)
    {
      ActionMembers(s, team, s.environments[e], l);
    }
  }

  /** AsLabels is the Cartesian product. */
  lemma LabelsAreCombinations(s: Scope, l: Labels)
    ensures l in LabelsOf(s) <==> Combination(s, l)
  {
    FlatMember(|s.teams|, TeamLabels(s), l);
    forall t: nat | t < |s.teams|
      ensures l in TeamLabels(s)(t) <==> Row(s, l, [s.teams[t]], s.environments, s.actions)
    {
      EnvironmentMembers(s, s.teams[t], l);
    }
  }

  // ---- MatchScope -----------------------------------------------------------------------

  function AllLabels(scopes: seq<Scope>): seq<Labels> {
    if scopes == [] then [] else AllLabels(scopes[..|scopes| - 1]) + LabelsOf(scopes[|scopes| - 1])
  }

  /** The decision the code computes. */
  predicate Decides(allowed: seq<Scope>, requested: Scope) {
    forall l :: l in LabelsOf(requested) ==> FindTree(Build(AllLabels(allowed)), l)
  }

  lemma BuildSnoc(ps: seq<Labels>, p: Labels)
    ensures Build(ps + [p]) == InsertTree(Build(ps), p)
  {
    assert (ps + [p])[..|ps + [p]| - 1] == ps;
  }

  method InsertAll(root: Node, labels: seq<Labels>, ghost ps: seq<Labels>)
    requires root.Valid() && root.tree == Build(ps)
    modifies root.repr
    ensures root.Valid() && fresh(root.repr - old(root.repr)) && root.tree == Build(ps + labels)
  {
    assert labels[..0] == [] && ps + [] == ps;
    for j := 0 to |labels|
      invariant root.Valid() && fresh(root.repr - old(root.repr))
      invariant root.tree == Build(ps + labels[..j])
    {
      var _ := root.Insert(labels[j]);
      BuildSnoc(ps + labels[..j], labels[j]);
      assert ps + labels[..j] + [labels[j]] == ps + labels[..j + 1];
    }
    assert labels[..|labels|] == labels;
  }

  /** The tree of everything allowed. */
  method InsertScopes(allowed: seq<Scope>) returns (root: Node)
    ensures root.Valid() && fresh(root.repr) && root.tree == Build(AllLabels(allowed))
  {
    root := new Node();
    for i := 0 to |allowed|
      invariant root.Valid() && fresh(root.repr)
      invariant root.tree == Build(AllLabels(allowed[..i]))
    {
      var labels := AsLabels(allowed[i]);
      InsertAll(root, labels, AllLabels(allowed[..i]));
      assert allowed[..i + 1][..i] == allowed[..i];
    }
    assert allowed[..|allowed|] == allowed;
  }

  method FindAll(root: Node, labels: seq<Labels>) returns (found: bool)
    requires root.Valid()
    ensures found == forall l :: l in labels ==> FindTree(root.tree, l)
  {
    for j := 0 to |labels|
      invariant forall k :: 0 <= k < j ==> FindTree(root.tree, labels[k])
    {
      if !root.Find(labels[j]) {
        assert labels[j] in labels;
        return false;
      }
    }
    return true;
  }

  method MatchScope(allowed: seq<Scope>, requested: Scope) returns (matched: bool)
    ensures matched == Decides(allowed, requested)
  {
    var root := InsertScopes(allowed);
    var labels := AsLabels(requested);
    matched := FindAll(root, labels);
  }

  // ---- what the decision means ----------------------------------------------------------

  predicate Grants(values: seq<string>, v: string) {
    v in values || WILDCARD in values
  }

  /** A single scope covers the requested labels component by component, by value or wildcard. */
  predicate ScopeCovers(s: Scope, l: Labels)
    requires |l| == 3 || |l| == 4
  {
    && Grants(s.teams, l[0]) && Grants(s.environments, l[1]) && Grants(s.actions, l[2])
    && (|l| == 4 ==> Grants(s.roles, l[3]))
  }

  ghost predicate EveryCombinationCovered(allowed: seq<Scope>, requested: Scope) {
    forall l: Labels :: Combination(requested, l) ==> exists i :: 0 <= i < |allowed| && ScopeCovers(allowed[i], l)
  }

  ghost predicate Offered(scopes: seq<Scope>, l: Labels) {
    exists i :: 0 <= i < |scopes| && Combination(scopes[i], l)
  }

  lemma OfferedSnoc(scopes: seq<Scope>, l: Labels)
    requires scopes != []
    ensures Offered(scopes, l) <==> Offered(scopes[..|scopes| - 1], l) || Combination(scopes[|scopes| - 1], l)
  {
    var front := scopes[..|scopes| - 1];
    if i :| 0 <= i < |front| && Combination(front[i], l) {
      assert Combination(scopes[i], l);
    }
    if i :| 0 <= i < |scopes| && Combination(scopes[i], l) {
      assert i < |front| ==> Combination(front[i], l);
    }
  }

  lemma {:induction false} AllLabelsMembers(scopes: seq<Scope>, l: Labels)
    ensures l in AllLabels(scopes) <==> Offered(scopes, l)
  {
    if scopes != [] {
      OfferedSnoc(scopes, l);
      AllLabelsMembers(scopes[..|scopes| - 1], l);
      LabelsAreCombinations(scopes[|scopes| - 1], l);
    }
  }

  function Pick(values: seq<string>, v: string): (w: string)
    requires Grants(values, v)
    ensures w in values && (w == v || w == WILDCARD)
  {
    if v in values then v else WILDCARD
  }

  /** Some combination of the scope covers the labels, exactly when every component does. */
  lemma CoveredByScope(s: Scope, l: Labels)
    requires |l| == 3 || |l| == 4
    ensures (exists p :: Combination(s, p) && Covers(p, l)) <==> ScopeCovers(s, l)
  {
    if ScopeCovers(s, l) {
      var p: Labels := [Pick(s.teams, l[0]), Pick(s.environments, l[1]), Pick(s.actions, l[2])];
      if s.roles != [] {
        p := p + [if |l| == 4 then Pick(s.roles, l[3]) else s.roles[0]];
      }
      assert Combination(s, p) && Covers(p, l);
    }
    if p :| Combination(s, p) && Covers(p, l) {
      assert forall i :: 0 <= i < |l| ==> p[i] == l[i] || p[i] == WILDCARD;
      assert p[0] == l[0] || p[0] == WILDCARD;
      assert p[1] == l[1] || p[1] == WILDCARD;
      assert p[2] == l[2] || p[2] == WILDCARD;
      if |l| == 4 {
        assert p[3] == l[3] || p[3] == WILDCARD;
      }
    }
  }

  lemma CoveredByAll(allowed: seq<Scope>, l: Labels)
    requires |l| == 3 || |l| == 4
    ensures Covered(AllLabels(allowed), l) <==> exists i :: 0 <= i < |allowed| && ScopeCovers(allowed[i], l)
  {
    var ps := AllLabels(allowed);
    if Covered(ps, l) {
      var k :| 0 <= k < |ps| && Covers(ps[k], l);
      AllLabelsMembers(allowed, ps[k]);
      var i :| 0 <= i < |allowed| && Combination(allowed[i], ps[k]);
      CoveredByScope(allowed[i], l);
    }
    if i :| 0 <= i < |allowed| && ScopeCovers(allowed[i], l) {
      CoveredByScope(allowed[i], l);
      var p :| Combination(allowed[i], p) && Covers(p, l);
      AllLabelsMembers(allowed, p);
      var k :| 0 <= k < |ps| && ps[k] == p;
    }
  }

  /** For any scopes at all, a positive decision means every requested combination is covered. */
  lemma DecisionIsSound(allowed: seq<Scope>, requested: Scope)
    requires Decides(allowed, requested)
    ensures EveryCombinationCovered(allowed, requested)
  {
    forall l: Labels | Combination(requested, l)
      ensures exists i :: 0 <= i < |allowed| && ScopeCovers(allowed[i], l)
    {
      LabelsAreCombinations(requested, l);
      Soundness(AllLabels(allowed), l);
      CoveredByAll(allowed, l);
    }
  }

  /** As long as condensing loses none of the inserted label lists, the decision is coverage by a single scope. */
  lemma DecisionWhenNothingLost(allowed: seq<Scope>, requested: Scope)
    requires NothingLost(AllLabels(allowed))
    ensures Decides(allowed, requested) <==> EveryCombinationCovered(allowed, requested)
  {
    if Decides(allowed, requested) {
      DecisionIsSound(allowed, requested);
    }
    if EveryCombinationCovered(allowed, requested) {
      ExactIffNothingLost(AllLabels(allowed));
      forall l | l in LabelsOf(requested) ensures FindTree(Build(AllLabels(allowed)), l) {
        LabelsAreCombinations(requested, l);
        CoveredByAll(allowed, l);
      }
    }
  }

  lemma SingleLabels(s: Scope, l: Labels)
    requires |s.teams| == |s.environments| == |s.actions| == 1 && |s.roles| <= 1
    requires l == [s.teams[0], s.environments[0], s.actions[0]] + s.roles
    ensures LabelsOf(s) == [l]
  {
    var team, env, action := s.teams[0], s.environments[0], s.actions[0];
    FlatOne(RoleLabels(s, team, env, action));
    FlatOne(ActionLabels(s, team, env));
    FlatOne(EnvironmentLabels(s, team));
    FlatOne(TeamLabels(s));
    if s.roles != [] {
      assert l == [team, env, action, s.roles[0]];
    } else {
      assert l == [team, env, action];
    }
  }

  lemma FlatOne(part: nat -> seq<Labels>)
    ensures Flat(1, part) == part(0)
  {
    assert Flat(0, part) == [];
  }

  /** Asking for one of the inserted label lists and nothing else: coverage always grants it. */
  lemma OwnLabelsCovered(allowed: seq<Scope>, p: Labels) returns (request: Scope)
    requires p in AllLabels(allowed)
    ensures LabelsOf(request) == [p] && EveryCombinationCovered(allowed, request)
  {
    AllLabelsMembers(allowed, p);
    request := Scope([p[2]], [p[1]], [p[0]], p[3..]);
    assert p == [p[0], p[1], p[2]] + p[3..];
    SingleLabels(request, p);
    var i :| 0 <= i < |AllLabels(allowed)| && AllLabels(allowed)[i] == p;
    assert Covers(AllLabels(allowed)[i], p);
    CoveredByAll(allowed, p);
    forall l: Labels | Combination(request, l) ensures l == p {
      LabelsAreCombinations(request, l);
    }
  }

  ghost predicate AlwaysCoverage(allowed: seq<Scope>) {
    forall requested: Scope :: Decides(allowed, requested) <==> EveryCombinationCovered(allowed, requested)
  }

  /**
    For any allowed scopes, every request is decided by coverage if and only if condensing lost none
    of the label lists inserted for them.
   */
  lemma CoverageIffNothingLost(allowed: seq<Scope>)
    ensures AlwaysCoverage(allowed) <==> NothingLost(AllLabels(allowed))
  {
    if NothingLost(AllLabels(allowed)) {
      forall requested: Scope ensures Decides(allowed, requested) <==> EveryCombinationCovered(allowed, requested) {
        DecisionWhenNothingLost(allowed, requested);
      }
    }
    if AlwaysCoverage(allowed) {
      forall p | p in AllLabels(allowed) && p != [] ensures LiveCovers(Live(AllLabels(allowed)), p) {
        var request := OwnLabelsCovered(allowed, p);
        assert Decides(allowed, request) && p in LabelsOf(request);
        FindIsLive(AllLabels(allowed), p);
      }
    }
  }

  /** No scope without roles that allows every action comes after a scope with roles. */
  ghost predicate NoWideActionAfterRoles(allowed: seq<Scope>) {
    forall i, j :: 0 <= i < j < |allowed| && allowed[i].roles != [] && allowed[j].roles == [] ==>
      WILDCARD !in allowed[j].actions
  }

  lemma {:induction false} LengthsAllow(allowed: seq<Scope>)
    requires NoWideActionAfterRoles(allowed)
    ensures CondensesLeavesOnly(AllLabels(allowed))
  {
    if allowed != [] {
      var n := |allowed| - 1;
      var front, last := AllLabels(allowed[..n]), LabelsOf(allowed[n]);
      LengthsAllow(allowed[..n]);
      forall p | p in front
        ensures |p| <= 4 && (allowed[n].roles == [] && WILDCARD in allowed[n].actions ==> |p| == 3)
      {
        AllLabelsMembers(allowed[..n], p);
        var i :| 0 <= i < n && Combination(allowed[..n][i], p);
        assert allowed[..n][i] == allowed[i];
      }
      forall p | p in last ensures Combination(allowed[n], p) {
        LabelsAreCombinations(allowed[n], p);
      }
      CondensesConcat(front, last, if allowed[n].roles == [] then 3 else 4);
    }
  }

  lemma CondensesConcat(front: seq<Labels>, last: seq<Labels>, d: nat)
    requires CondensesLeavesOnly(front) && forall p :: p in last ==> |p| == d
    requires forall p, l :: p in last && l in front && EndsInWildcard(p) ==> |l| <= d
    ensures CondensesLeavesOnly(front + last)
  {
    var all := front + last;
    forall i, j | 0 <= j < i < |all| && EndsInWildcard(all[i]) ensures |all[j]| <= |all[i]| {
      if i >= |front| {
        assert all[i] in last && (all[j] in front || all[j] in last);
      }
    }
  }

  /** In particular when no scope without roles that allows every action comes after a scope with roles. */
  lemma DecisionIsCoverage(allowed: seq<Scope>, requested: Scope)
    requires NoWideActionAfterRoles(allowed)
    ensures Decides(allowed, requested) <==> EveryCombinationCovered(allowed, requested)
  {
    LengthsAllow(allowed);
    forall p | p in AllLabels(allowed) ensures LiveCovers(Live(AllLabels(allowed)), p) {
      LeavesLoseNothing(AllLabels(allowed), p);
    }
    DecisionWhenNothingLost(allowed, requested);
  }

  /** A mix loses access: adding a role-less scope with a wildcard action drops what a scope with roles granted. */
  lemma MixedRolesLoseAccess()
    ensures
      var request := Scope(["GET"], ["dev"], ["t"], ["user"]);
      var wide := Scope(["*"], ["dev"], ["t"], []);
      && Decides([request], request)
      && EveryCombinationCovered([request, wide], request)
      && !Decides([request, wide], request)
  {
    var request := Scope(["GET"], ["dev"], ["t"], ["user"]);
    var wide := Scope(["*"], ["dev"], ["t"], []);
    var l: Labels := ["t", "dev", "GET", "user"];
    assert ScopeCovers([request][0], l) && ScopeCovers([request, wide][0], l);
    forall m: Labels | Combination(request, m) ensures m == l {}
    assert EveryCombinationCovered([request], request);
    DecisionIsCoverage([request], request);
    assert Combination(request, l);
    LabelsAreCombinations(request, l);
    MixedTree(request, wide);
  }

  lemma MixedTree(request: Scope, wide: Scope)
    requires request == Scope(["GET"], ["dev"], ["t"], ["user"]) && wide == Scope(["*"], ["dev"], ["t"], [])
    ensures !FindTree(Build(AllLabels([request, wide])), ["t", "dev", "GET", "user"])
  {
    var p: Labels, w: Labels := ["t", "dev", "GET", "user"], ["t", "dev", "*"];
    SingleLabels(request, p);
    SingleLabels(wide, w);
    assert [request, wide][..1] == [request] && [request][..0] == [];
    assert AllLabels([request]) == [p];
    BuildSnoc([p], w);
    BuildSnoc([], p);
    assert [] + [p] == [p];
    assert p[1..] == ["dev", "GET", "user"] && p[1..][1..] == ["GET", "user"] && p[1..][1..][1..] == ["user"];
    assert w[1..] == ["dev", "*"] && w[1..][1..] == ["*"] && ["*"][1..] == [] && ["user"][1..] == [];
    var user := InsertTree(EMPTY, ["user"]);
    var get := InsertTree(EMPTY, ["GET", "user"]);
    assert get == Tree(map["GET" := user]);
    var dev := InsertTree(EMPTY, ["dev", "GET", "user"]);
    assert dev == Tree(map["dev" := get]);
    assert InsertTree(EMPTY, p) == Tree(map["t" := dev]);
    var any := InsertTree(get, ["*"]);
    assert any == Tree(map["*" := EMPTY]);
    var dev' := InsertTree(dev, ["dev", "*"]);
    assert dev' == Tree(map["dev" := any]);
    assert InsertTree(Tree(map["t" := dev]), w) == Tree(map["t" := dev']);
    assert !FindTree(EMPTY, ["user"]);
    assert !FindTree(any, ["GET", "user"]);
    assert !FindTree(dev', ["dev", "GET", "user"]);
  }
}
