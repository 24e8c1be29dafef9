/** The relational meaning of the project identity queries: every project is fanned out into the identity values
    it answers to, and ownership rows are joined on those. Rows are those of one organization. */
module ProjectIdentity {
  import opened Wrappers

  /** A row of projects; project_key may be null. */
  datatype Project = Project(provider: string, id: string, projectKey: Option<string>) {
    function KeyText(): string { if projectKey.Some? then projectKey.value else "" }
  }

  /** The table's key: a provider's ids are unique. */
  predicate IsTable(projects: set<Project>) {
    forall p, q :: p in projects && q in projects && p.provider == q.provider && p.id == q.id ==> p == q
  }

  /** The window count over the whole organization: the projects of one provider that carry the same non-empty key. */
  function KeyCount(projects: set<Project>, p: Project): nat {
    |set q | q in projects && q.provider == p.provider && q.KeyText() == p.KeyText() && q.KeyText() != ""|
  }

  /** A scope's kind; the greater one survives grouping. */
  datatype Kind = IdScope | KeyScope

  datatype Row = Row(provider: string, id: string, key: string, count: nat, scope: string, kind: Kind)

  predicate KeyScopeEmitted(projects: set<Project>, p: Project) { p.KeyText() != "" && KeyCount(projects, p) == 1 }

  // ----- the fan-out -----

  function Scopes(projects: set<Project>, p: Project): seq<string> {
    if KeyScopeEmitted(projects, p) then [p.id, p.KeyText()] else [p.id]
  }

  function Kinds(projects: set<Project>, p: Project): seq<Kind> {
    if KeyScopeEmitted(projects, p) then [IdScope, KeyScope] else [IdScope]
  }

  function Counts(projects: set<Project>, p: Project): seq<nat> {
    if KeyScopeEmitted(projects, p) then [1, KeyCount(projects, p)] else [1]
  }

  /** The three arrays of a project joined element by element: the same length for every project. */
  function FanOut(projects: set<Project>, p: Project): (rows: seq<Row>)
    ensures |rows| == |Scopes(projects, p)| == |Kinds(projects, p)| == |Counts(projects, p)|
  {
    seq(|Scopes(projects, p)|, i requires 0 <= i < |Scopes(projects, p)| =>
      Row(p.provider, p.id, p.KeyText(), Counts(projects, p)[i], Scopes(projects, p)[i], Kinds(projects, p)[i]))
  }

  /** The fanned-out rows of the chosen projects; counts look at the whole organization. */
  function Fanned(projects: set<Project>, chosen: set<Project>): set<Row> {
    set p, i | p in chosen && 0 <= i < |FanOut(projects, p)| :: FanOut(projects, p)[i]
  }

  predicate SameGroup(r: Row, s: Row) {
    r.provider == s.provider && r.id == s.id && r.key == s.key && r.count == s.count && r.scope == s.scope
  }

  /** One row per group, with the group's greatest kind. */
  function Grouped(rows: set<Row>): set<Row> {
    set r | r in rows && (r.kind == KeyScope || forall s :: s in rows && SameGroup(r, s) ==> s.kind == IdScope)
  }

  function Expansion(projects: set<Project>, chosen: set<Project>): set<Row> { Grouped(Fanned(projects, chosen)) }

  function Catalog(projects: set<Project>): set<Row> { Expansion(projects, projects) }

  function Subject(provider: string, id: string): string { provider + ":" + id }

  /** The projects a request names. */
  function Requested(projects: set<Project>, ids: set<string>): set<Project> {
    set p | p in projects && Subject(p.provider, p.id) in ids
  }

  // ----- what a fanned-out row says -----

  lemma FannedRow(projects: set<Project>, chosen: set<Project>, r: Row) returns (p: Project)
    requires r in Fanned(projects, chosen)
    ensures p in chosen && r.provider == p.provider && r.id == p.id && r.key == p.KeyText() && r.count == 1
    ensures r.kind == IdScope ==> r.scope == p.id
    ensures r.kind == KeyScope ==> KeyScopeEmitted(projects, p) && r.scope == p.KeyText()
  {
    var q, i :| q in chosen && 0 <= i < |FanOut(projects, q)| && r == FanOut(projects, q)[i];
    p := q;
  }

  lemma IdRowFanned(projects: set<Project>, chosen: set<Project>, p: Project)
    requires p in chosen
    ensures Row(p.provider, p.id, p.KeyText(), 1, p.id, IdScope) in Fanned(projects, chosen)
  {
    assert FanOut(projects, p)[0] == Row(p.provider, p.id, p.KeyText(), 1, p.id, IdScope);
  }

  lemma KeyRowFanned(projects: set<Project>, chosen: set<Project>, p: Project)
    requires p in chosen && KeyScopeEmitted(projects, p)
    ensures Row(p.provider, p.id, p.KeyText(), 1, p.KeyText(), KeyScope) in Fanned(projects, chosen)
  {
    assert FanOut(projects, p)[1] == Row(p.provider, p.id, p.KeyText(), 1, p.KeyText(), KeyScope);
  }

  /** Exactly which identity values a project answers to, and as what kind: its id, and its key when no other
      project of the provider has it. A value that is both is labelled as a key. */
  lemma ExpansionMeaning(projects: set<Project>, chosen: set<Project>, p: Project, scope: string, kind: Kind)
    requires IsTable(projects) && chosen <= projects && p in chosen
    ensures var r := Row(p.provider, p.id, p.KeyText(), 1, scope, kind);
            r in Expansion(projects, chosen) <==>
              (if KeyScopeEmitted(projects, p) && scope == p.KeyText() then kind == KeyScope else scope == p.id && kind == IdScope)
  {
    var rows, r := Fanned(projects, chosen), Row(p.provider, p.id, p.KeyText(), 1, scope, kind);
    if r in rows { var q := FannedRow(projects, chosen, r); }
    if KeyScopeEmitted(projects, p) { KeyRowFanned(projects, chosen, p); }
    IdRowFanned(projects, chosen, p);
    if r in rows && r.kind == IdScope {
      var s := r.(kind := KeyScope);
      if s in rows { var q := FannedRow(projects, chosen, s); }
      assert forall t :: t in rows && SameGroup(r, t) && t.kind == KeyScope ==> t == s;
    }
  }

  /** A row of the expansion is a chosen project's row as the expansion means it. */
  lemma ExpansionRow(projects: set<Project>, chosen: set<Project>, r: Row) returns (p: Project)
    requires IsTable(projects) && chosen <= projects && r in Expansion(projects, chosen)
    ensures p in chosen && r == Row(p.provider, p.id, p.KeyText(), 1, r.scope, r.kind)
    ensures if KeyScopeEmitted(projects, p) && r.scope == p.KeyText() then r.kind == KeyScope else r.scope == p.id && r.kind == IdScope
  {
    p := FannedRow(projects, chosen, r);
    ExpansionMeaning(projects, chosen, p, r.scope, r.kind);
  }

  // ----- uniqueness and ambiguity -----

  /** One row per provider, id and scope, even for a project whose id is its key. */
  lemma ScopeIsUnique(projects: set<Project>, r: Row, s: Row)
    requires IsTable(projects) && r in Catalog(projects) && s in Catalog(projects)
    requires r.provider == s.provider && r.id == s.id && r.scope == s.scope
    ensures r == s
  {
    var p := ExpansionRow(projects, projects, r);
    var q := ExpansionRow(projects, projects, s);
  }

  /** A key of one project only: nobody else of the provider has it. */
  lemma EmittedIsAlone(projects: set<Project>, p: Project, q: Project)
    requires p in projects && q in projects && KeyScopeEmitted(projects, p)
    requires q.provider == p.provider && q.KeyText() == p.KeyText()
    ensures q == p
  {
    var sharing := set x | x in projects && x.provider == p.provider && x.KeyText() == p.KeyText() && x.KeyText() != "";
    assert {p, q} <= sharing;
    if q != p {
      assert |{p, q}| == 2;
      SubsetIsSmaller({p, q}, sharing);
    }
  }

  lemma SubsetIsSmaller(a: set<Project>, b: set<Project>)
    requires a <= b
    ensures |a| <= |b|
  {
    assert b == a + (b - a);
  }

  /** A non-empty key is emitted exactly when no other project of the provider has it. */
  lemma EmittedMeaning(projects: set<Project>, p: Project)
    requires p in projects
    ensures KeyScopeEmitted(projects, p) <==>
            p.KeyText() != "" && forall q :: q in projects && q.provider == p.provider && q.KeyText() == p.KeyText() ==> q == p
  {
    var sharing := set x | x in projects && x.provider == p.provider && x.KeyText() == p.KeyText() && x.KeyText() != "";
    if KeyScopeEmitted(projects, p) {
      forall q | q in projects && q.provider == p.provider && q.KeyText() == p.KeyText() ensures q == p { EmittedIsAlone(projects, p, q); }
    }
    if p.KeyText() != "" && forall q :: q in projects && q.provider == p.provider && q.KeyText() == p.KeyText() ==> q == p {
      assert sharing == {p};
    }
  }

  /** A key shared by two projects of one provider has no key row. */
  lemma SharedKeyHasNoRow(projects: set<Project>, p: Project, q: Project, r: Row)
    requires IsTable(projects) && p in projects && q in projects && p != q
    requires p.provider == q.provider && p.KeyText() == q.KeyText()
    requires r in Catalog(projects) && r.provider == p.provider && r.kind == KeyScope
    ensures r.scope != p.KeyText()
  {
    var x := ExpansionRow(projects, projects, r);
    if r.scope == p.KeyText() {
      EmittedIsAlone(projects, x, p);
      EmittedIsAlone(projects, x, q);
    }
  }

  /** The filtered form is the catalog form restricted to the requested subjects. */
  lemma FilteredIsRestricted(projects: set<Project>, ids: set<string>)
    requires IsTable(projects)
    ensures Expansion(projects, Requested(projects, ids)) == set r | r in Catalog(projects) && Subject(r.provider, r.id) in ids
  {
    var chosen := Requested(projects, ids);
    forall r ensures r in Expansion(projects, chosen) <==> r in Catalog(projects) && Subject(r.provider, r.id) in ids {
      if r in Expansion(projects, chosen) {
        var p := ExpansionRow(projects, chosen, r);
        ExpansionMeaning(projects, projects, p, r.scope, r.kind);
      }
      if r in Catalog(projects) && Subject(r.provider, r.id) in ids {
        var p := ExpansionRow(projects, projects, r);
        ExpansionMeaning(projects, chosen, p, r.scope, r.kind);
      }
    }
  }

  // ----- the ownership join -----

  /** A current row of team_project_ownership. */
  datatype Ownership = Ownership(provider: string, projectId: Option<string>, projectKey: Option<string>, team: string)

  /** One side of the join: a value to match, and whether only key scopes may match it. */
  datatype Arm = Arm(provider: string, value: string, team: string, keyOnly: bool)

  function Arms(owners: set<Ownership>): set<Arm> {
    (set o | o in owners && o.projectId.Some? :: Arm(o.provider, o.projectId.value, o.team, false)) +
    (set o | o in owners && o.projectKey.Some? && o.projectKey.value != "" :: Arm(o.provider, o.projectKey.value, o.team, true))
  }

  predicate Matches(arm: Arm, r: Row) {
    arm.provider == r.provider && arm.value == r.scope && (arm.keyOnly ==> r.kind == KeyScope)
  }

  datatype Owned = Owned(provider: string, id: string, team: string)

  function OwnershipJoin(rows: set<Row>, owners: set<Ownership>): set<Owned> {
    set arm, r | arm in Arms(owners) && r in rows && Matches(arm, r) :: Owned(r.provider, r.id, arm.team)
  }

  /** One ownership row's project_key reaches at most one project. */
  lemma KeyArmReachesOne(projects: set<Project>, arm: Arm, r: Row, s: Row)
    requires IsTable(projects) && r in Catalog(projects) && s in Catalog(projects)
    requires arm.keyOnly && Matches(arm, r) && Matches(arm, s)
    ensures r == s
  {
    var p := ExpansionRow(projects, projects, r);
    var q := ExpansionRow(projects, projects, s);
    EmittedIsAlone(projects, p, q);
  }

  /** One ownership row's project_id reaches at most the project with that id and the project alone with that key. */
  lemma IdArmReachesTwo(projects: set<Project>, arm: Arm, r: Row, s: Row, t: Row)
    requires IsTable(projects) && r in Catalog(projects) && s in Catalog(projects) && t in Catalog(projects)
    requires Matches(arm, r) && Matches(arm, s) && Matches(arm, t)
    ensures r == s || s == t || r == t
  {
    var p := ExpansionRow(projects, projects, r);
    var q := ExpansionRow(projects, projects, s);
    var x := ExpansionRow(projects, projects, t);
    if p.KeyText() == q.KeyText() && KeyScopeEmitted(projects, p) { EmittedIsAlone(projects, p, q); }
    if q.KeyText() == x.KeyText() && KeyScopeEmitted(projects, q) { EmittedIsAlone(projects, q, x); }
    if p.KeyText() == x.KeyText() && KeyScopeEmitted(projects, p) { EmittedIsAlone(projects, p, x); }
  }

  /** The project's own key, which no other project of the provider has. */
  predicate OwnKey(projects: set<Project>, p: Project, key: Option<string>) {
    key == p.projectKey && p.KeyText() != "" &&
    forall q :: q in projects && q.provider == p.provider && q.KeyText() == p.KeyText() ==> q == p
  }

  /** A team owns a project exactly when one of its ownership rows for the provider names the project's id in
      project_id, or the project's own unambiguous key in project_id or project_key. */
  lemma JoinMeaning(projects: set<Project>, owners: set<Ownership>, p: Project, team: string)
    requires IsTable(projects) && p in projects
    ensures Owned(p.provider, p.id, team) in OwnershipJoin(Catalog(projects), owners) <==>
            exists o :: o in owners && o.provider == p.provider && o.team == team &&
              (o.projectId == Some(p.id) || OwnKey(projects, p, o.projectId) || OwnKey(projects, p, o.projectKey))
  {
    var owned, rows := Owned(p.provider, p.id, team), Catalog(projects);
    EmittedMeaning(projects, p);
    if owned in OwnershipJoin(rows, owners) {
      var arm, r :| arm in Arms(owners) && r in rows && Matches(arm, r) && owned == Owned(r.provider, r.id, arm.team);
      var q := ExpansionRow(projects, projects, r);
      var o :| o in owners && o.provider == arm.provider && o.team == arm.team &&
        (if arm.keyOnly then o.projectKey == Some(arm.value) else o.projectId == Some(arm.value));
    }
    forall o | o in owners && o.provider == p.provider && o.team == team &&
        (o.projectId == Some(p.id) || OwnKey(projects, p, o.projectId) || OwnKey(projects, p, o.projectKey))
      ensures owned in OwnershipJoin(rows, owners)
    {
      OwnerIsJoined(projects, owners, p, o);
    }
  }

  lemma OwnerIsJoined(projects: set<Project>, owners: set<Ownership>, p: Project, o: Ownership)
    requires IsTable(projects) && p in projects && o in owners && o.provider == p.provider
    requires o.projectId == Some(p.id) || OwnKey(projects, p, o.projectId) || OwnKey(projects, p, o.projectKey)
    ensures Owned(p.provider, p.id, o.team) in OwnershipJoin(Catalog(projects), owners)
  {
    EmittedMeaning(projects, p);
    var keyOnly := o.projectId != Some(p.id) && !OwnKey(projects, p, o.projectId);
    var value := if keyOnly then o.projectKey.value else o.projectId.value;
    var arm := Arm(o.provider, value, o.team, keyOnly);
    assert arm in Arms(owners);
    var kind := if KeyScopeEmitted(projects, p) && value == p.KeyText() then KeyScope else IdScope;
    var r := Row(p.provider, p.id, p.KeyText(), 1, value, kind);
    ExpansionMeaning(projects, projects, p, value, kind);
    assert r in Catalog(projects) && Matches(arm, r);
  }
}
