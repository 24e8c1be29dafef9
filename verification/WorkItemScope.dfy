/** The relational meaning of the work-item authorization query, over the rows of one organization. Sorted arrays
    of distinct slugs are sets here, and repository ids are their text. */
module WorkItemScope {
  import opened Wrappers
  import opened Compact
  import opened RepoKey
  import opened ProjectIdentity

  const ZERO_UUID := "00000000-0000-0000-0000-000000000000"
  const NATIVE := "native"

  datatype Item = Item(id: string, repoId: string, provider: string, projectId: string)

  datatype Link = Link(itemId: string, repoId: string, provenance: string)

  datatype TeamRepo = TeamRepo(team: string, repoId: string)

  /** items holds every stored version of every item; repos maps an id to its name, a null name being empty. */
  datatype Tables = Tables(items: set<Item>, repos: map<string, string>, projects: set<Project>,
                           owners: set<Ownership>, teamRepos: set<TeamRepo>, links: set<Link>)

  /** The work items the two aggregates are narrowed to. */
  datatype Candidates = Everything | Among(ids: set<string>)

  /** The slug normalization is the engine's; the same function is applied on every path. */
  datatype Context = Context(normalize: string -> string, tables: Tables, candidates: Candidates)

  predicate UuidPresent(id: string) { id != "" && id != ZERO_UUID }

  /** A selector set after normalization. */
  datatype Selectors = Selectors(all: bool, slugs: set<string>, owners: set<string>) {
    predicate Match(slug: string) { slug in slugs || Split(slug, '/')[0] in owners }

    /** Valid by the key grammar, and matched exactly or by its owner. */
    predicate Grants(slug: string) { ValidSlug(slug) && Match(slug) }
  }

  // ----- the two aggregates -----

  function CandidateScopes(t: Tables, ids: set<string>): set<(string, string)> {
    set w | w in t.items && w.id in ids :: (w.provider, w.projectId)
  }

  predicate KeepsScope(ctx: Context, provider: string, scope: string) {
    ctx.candidates.Among? ==> (provider, scope) in CandidateScopes(ctx.tables, ctx.candidates.ids)
  }

  function ScopeRows(ctx: Context): set<Row> {
    set r | r in Catalog(ctx.tables.projects) && KeepsScope(ctx, r.provider, r.scope)
  }

  function OwnedProjects(ctx: Context): set<Owned> {
    set o | o in OwnershipJoin(Catalog(ctx.tables.projects), ctx.tables.owners) &&
      (ctx.candidates.Among? ==> exists r :: r in ScopeRows(ctx) && r.provider == o.provider && r.id == o.id)
  }

  /** A repository of the team that the grant covers. */
  predicate TeamReaches(ctx: Context, granted: Selectors, x: TeamRepo, team: string) {
    x.team == team && UuidPresent(x.repoId) && x.repoId in ctx.tables.repos && granted.Grants(ctx.normalize(ctx.tables.repos[x.repoId]))
  }

  /** The granted repositories of the teams that own a project under the provider and identity value. */
  function ProjectRepositories(ctx: Context, granted: Selectors, provider: string, scope: string): set<string> {
    set r, o, x | r in ScopeRows(ctx) && r.provider == provider && r.scope == scope
        && o in OwnedProjects(ctx) && o.provider == r.provider && o.id == r.id
        && x in ctx.tables.teamRepos && TeamReaches(ctx, granted, x, o.team)
      :: if x.repoId in ctx.tables.repos then ctx.normalize(ctx.tables.repos[x.repoId]) else ""
  }

  /** A link row of the item that names a granted repository. */
  predicate LinkReaches(ctx: Context, granted: Selectors, l: Link, itemId: string) {
    && (ctx.candidates.Among? ==> l.itemId in ctx.candidates.ids)
    && l.itemId == itemId && l.itemId != "" && UuidPresent(l.repoId)
    && l.repoId in ctx.tables.repos && granted.Grants(ctx.normalize(ctx.tables.repos[l.repoId]))
  }

  function LinkRepositories(ctx: Context, granted: Selectors, itemId: string): set<string> {
    set l | l in ctx.tables.links && LinkReaches(ctx, granted, l, itemId) && l.provenance == NATIVE
      :: if l.repoId in ctx.tables.repos then ctx.normalize(ctx.tables.repos[l.repoId]) else ""
  }

  /** The provenances of the links that name a granted repository but do not authorize. */
  function ExcludedProvenances(ctx: Context, granted: Selectors, w: Item): set<string> {
    if UuidPresent(w.repoId) then {}
    else set l | l in ctx.tables.links && LinkReaches(ctx, granted, l, w.id) && l.provenance != NATIVE :: l.provenance
  }

  // ----- narrowing -----

  /** A kept group is the group the unnarrowed relation computes, and a dropped one is empty. */
  lemma ProjectGroupKeptOrDropped(ctx: Context, granted: Selectors, provider: string, scope: string)
    ensures var wide := ctx.(candidates := Everything);
            ProjectRepositories(ctx, granted, provider, scope) ==
              if KeepsScope(ctx, provider, scope) then ProjectRepositories(wide, granted, provider, scope) else {}
  {
    var wide := ctx.(candidates := Everything);
    var narrow, full := ProjectRepositories(ctx, granted, provider, scope), ProjectRepositories(wide, granted, provider, scope);
    forall slug | slug in narrow ensures slug in full && KeepsScope(ctx, provider, scope) {
      var r, o, x := ProjectWitness(ctx, granted, provider, scope, slug);
      assert r in ScopeRows(wide) && o in OwnedProjects(wide);
      assert TeamReaches(wide, granted, x, o.team);
    }
    if KeepsScope(ctx, provider, scope) {
      forall slug | slug in full ensures slug in narrow {
        var r, o, x := ProjectWitness(wide, granted, provider, scope, slug);
        assert r in ScopeRows(ctx) && o in OwnedProjects(ctx);
        assert TeamReaches(ctx, granted, x, o.team);
      }
    }
  }

  lemma ProjectWitness(ctx: Context, granted: Selectors, provider: string, scope: string, slug: string)
      returns (r: Row, o: Owned, x: TeamRepo)
    requires slug in ProjectRepositories(ctx, granted, provider, scope)
    ensures r in ScopeRows(ctx) && r.provider == provider && r.scope == scope
    ensures o in OwnedProjects(ctx) && o.provider == r.provider && o.id == r.id
    ensures x in ctx.tables.teamRepos && TeamReaches(ctx, granted, x, o.team) && slug == ctx.normalize(ctx.tables.repos[x.repoId])
  {
    r, o, x :| r in ScopeRows(ctx) && r.provider == provider && r.scope == scope
      && o in OwnedProjects(ctx) && o.provider == r.provider && o.id == r.id
      && x in ctx.tables.teamRepos && TeamReaches(ctx, granted, x, o.team)
      && slug == if x.repoId in ctx.tables.repos then ctx.normalize(ctx.tables.repos[x.repoId]) else "";
  }

  lemma LinkGroupKeptOrDropped(ctx: Context, granted: Selectors, itemId: string)
    ensures var wide := ctx.(candidates := Everything);
            LinkRepositories(ctx, granted, itemId) ==
              if ctx.candidates.Among? && itemId !in ctx.candidates.ids then {} else LinkRepositories(wide, granted, itemId)
  {
    var wide := ctx.(candidates := Everything);
    assert forall l :: (ctx.candidates.Among? ==> itemId in ctx.candidates.ids) ==>
             (LinkReaches(ctx, granted, l, itemId) <==> LinkReaches(wide, granted, l, itemId));
  }

  // ----- the paths -----

  datatype Path = OrganizationGrant | DirectRepository | ProjectOwnership | PullRequestLink

  const PATHS := [OrganizationGrant, DirectRepository, ProjectOwnership, PullRequestLink]

  /** The normalized name of the item's own repository; of no name when the join finds none. */
  function OwnSlug(ctx: Context, w: Item): string {
    ctx.normalize(if w.repoId in ctx.tables.repos then ctx.tables.repos[w.repoId] else "")
  }

  predicate OnPath(ctx: Context, granted: Selectors, path: Path, w: Item) {
    match path
    case OrganizationGrant => granted.all
    case DirectRepository => UuidPresent(w.repoId) && granted.Grants(OwnSlug(ctx, w))
    case ProjectOwnership =>
      !UuidPresent(w.repoId) && w.projectId != "" && ProjectRepositories(ctx, granted, w.provider, w.projectId) != {}
    case PullRequestLink => !UuidPresent(w.repoId) && LinkRepositories(ctx, granted, w.id) != {}
  }

  function PathRepositories(ctx: Context, granted: Selectors, path: Path, w: Item): set<string> {
    match path
    case OrganizationGrant => {}
    case DirectRepository => {OwnSlug(ctx, w)}
    case ProjectOwnership => ProjectRepositories(ctx, granted, w.provider, w.projectId)
    case PullRequestLink => LinkRepositories(ctx, granted, w.id)
  }

  predicate RequestedMatch(ctx: Context, requested: Selectors, w: Item) {
    UuidPresent(w.repoId) && OwnSlug(ctx, w) != "" && (requested.all || requested.Grants(OwnSlug(ctx, w)))
  }

  // ----- the rendered expressions -----

  datatype SelectorScope = SelectorScope(granted: Selectors, requested: Option<Selectors>)

  datatype Scope = Scope(grantedIds: Option<set<string>>, requestedIds: Option<set<string>>, selectors: Option<SelectorScope>)

  /** A conjunct of a rendered expression. */
  datatype Clause =
    | InIds(ids: set<string>)
    | OnSomePath(granted: Selectors)
    | Along(granted: Selectors, path: Path)
    | Requested(selectors: Selectors)

  predicate Holds(ctx: Context, c: Clause, w: Item) {
    match c
    case InIds(ids) => w.repoId in ids
    case OnSomePath(granted) =>
      || OnPath(ctx, granted, OrganizationGrant, w) || OnPath(ctx, granted, DirectRepository, w)
      || OnPath(ctx, granted, ProjectOwnership, w) || OnPath(ctx, granted, PullRequestLink, w)
    case Along(granted, path) => OnPath(ctx, granted, path, w)
    case Requested(selectors) => RequestedMatch(ctx, selectors, w)
  }

  predicate AllHold(ctx: Context, clauses: seq<Clause>, w: Item) { forall i :: 0 <= i < |clauses| ==> Holds(ctx, clauses[i], w) }

  /** What a scope demands of a row besides its path. */
  predicate Restricted(ctx: Context, scope: Scope, w: Item) {
    && (scope.grantedIds.Some? ==> w.repoId in scope.grantedIds.value)
    && (scope.requestedIds.Some? ==> w.repoId in scope.requestedIds.value)
    && (scope.selectors.Some? && scope.selectors.value.requested.Some? ==> RequestedMatch(ctx, scope.selectors.value.requested.value, w))
  }

  function IdClauses(scope: Scope): seq<Clause> {
    (if scope.grantedIds.Some? then [InIds(scope.grantedIds.value)] else []) +
    (if scope.requestedIds.Some? then [InIds(scope.requestedIds.value)] else [])
  }

  function RequestedClauses(scope: Scope): seq<Clause> {
    if scope.selectors.Some? && scope.selectors.value.requested.Some? then [Requested(scope.selectors.value.requested.value)] else []
  }

  lemma BothHold(ctx: Context, a: seq<Clause>, b: seq<Clause>, w: Item)
    ensures AllHold(ctx, a + b, w) <==> AllHold(ctx, a, w) && AllHold(ctx, b, w)
  {
    var c := a + b;
    if AllHold(ctx, c, w) {
      forall i | 0 <= i < |a| ensures Holds(ctx, a[i], w) { assert c[i] == a[i]; }
      forall i | 0 <= i < |b| ensures Holds(ctx, b[i], w) { assert c[|a| + i] == b[i]; }
    }
  }

  lemma OneHolds(ctx: Context, c: Clause, w: Item)
    ensures AllHold(ctx, [c], w) <==> Holds(ctx, c, w)
  {
    assert [c][0] == c;
  }

  lemma RestrictionsHold(ctx: Context, scope: Scope, w: Item)
    ensures AllHold(ctx, IdClauses(scope), w) && AllHold(ctx, RequestedClauses(scope), w) <==> Restricted(ctx, scope, w)
  {
    var granted := if scope.grantedIds.Some? then [InIds(scope.grantedIds.value)] else [];
    var requested := if scope.requestedIds.Some? then [InIds(scope.requestedIds.value)] else [];
    BothHold(ctx, granted, requested, w);
    if scope.grantedIds.Some? { OneHolds(ctx, InIds(scope.grantedIds.value), w); }
    if scope.requestedIds.Some? { OneHolds(ctx, InIds(scope.requestedIds.value), w); }
    if scope.selectors.Some? && scope.selectors.value.requested.Some? {
      OneHolds(ctx, Requested(scope.selectors.value.requested.value), w);
    }
  }

  /** The ids, one further clause and the requested selector, in either order the code joins them. */
  lemma ClausesHold(ctx: Context, scope: Scope, c: Clause, w: Item)
    ensures AllHold(ctx, IdClauses(scope) + [c] + RequestedClauses(scope), w) <==> Restricted(ctx, scope, w) && Holds(ctx, c, w)
    ensures AllHold(ctx, [c] + (IdClauses(scope) + RequestedClauses(scope)), w) <==> Restricted(ctx, scope, w) && Holds(ctx, c, w)
  {
    RestrictionsHold(ctx, scope, w);
    OneHolds(ctx, c, w);
    BothHold(ctx, IdClauses(scope) + [c], RequestedClauses(scope), w);
    BothHold(ctx, IdClauses(scope), [c], w);
    BothHold(ctx, [c], IdClauses(scope) + RequestedClauses(scope), w);
    BothHold(ctx, IdClauses(scope), RequestedClauses(scope), w);
  }

  /** The path's expression: its own condition and the request's restrictions. */
  predicate Takes(ctx: Context, scope: Scope, path: Path, w: Item)
    requires scope.selectors.Some?
  {
    Restricted(ctx, scope, w) && OnPath(ctx, scope.selectors.value.granted, path, w)
  }

  /** The rendered statement: the conjuncts of the authorization expression and of each path's. */
  datatype Rendered = Rendered(authorization: seq<Clause>, provenance: seq<seq<Clause>>)

  /** The slices the code appends to, in its order; an empty conjunction stands for 1. */
  method Render(scope: Scope) returns (r: Rendered)
    ensures scope.selectors.None? ==> r == Rendered(IdClauses(scope), [])
    ensures scope.selectors.Some? ==> |r.provenance| == |PATHS|
    ensures scope.selectors.Some? ==> forall ctx, w :: AllHold(ctx, r.authorization, w) <==> exists path :: Takes(ctx, scope, path, w)
    ensures scope.selectors.Some? ==> forall ctx, w, i :: 0 <= i < |PATHS| ==> (AllHold(ctx, r.provenance[i], w) <==> Takes(ctx, scope, PATHS[i], w))
  {
    var expressions: seq<Clause> := [];
    if scope.grantedIds.Some? { expressions := expressions + [InIds(scope.grantedIds.value)]; }
    if scope.requestedIds.Some? { expressions := expressions + [InIds(scope.requestedIds.value)]; }
    assert expressions == IdClauses(scope);
    if scope.selectors.None? { return Rendered(expressions, []); }
    var granted := scope.selectors.value.granted;
    var restrictions := expressions;
    expressions := expressions + [OnSomePath(granted)];
    if scope.selectors.value.requested.Some? {
      var requested := Requested(scope.selectors.value.requested.value);
      expressions, restrictions := expressions + [requested], restrictions + [requested];
    }
    assert expressions == IdClauses(scope) + [OnSomePath(granted)] + RequestedClauses(scope);
    assert restrictions == IdClauses(scope) + RequestedClauses(scope);
    var provenance: seq<seq<Clause>> := [];
    for i := 0 to |PATHS|
      invariant |provenance| == i
      invariant forall j :: 0 <= j < i ==> provenance[j] == [Along(granted, PATHS[j])] + restrictions
    {
      provenance := provenance + [[Along(granted, PATHS[i])] + restrictions];
    }
    r := Rendered(expressions, provenance);
    forall ctx, w ensures AllHold(ctx, expressions, w) <==> exists path :: Takes(ctx, scope, path, w) {
      ClausesHold(ctx, scope, OnSomePath(granted), w);
      SomePathMeans(ctx, scope, w);
    }
    forall ctx, w, i | 0 <= i < |PATHS| ensures AllHold(ctx, provenance[i], w) <==> Takes(ctx, scope, PATHS[i], w) {
      ClausesHold(ctx, scope, Along(granted, PATHS[i]), w);
    }
  }

  lemma SomePathMeans(ctx: Context, scope: Scope, w: Item)
    requires scope.selectors.Some?
    ensures Restricted(ctx, scope, w) && Holds(ctx, OnSomePath(scope.selectors.value.granted), w) <==> exists path :: Takes(ctx, scope, path, w)
  {
    if Restricted(ctx, scope, w) && Holds(ctx, OnSomePath(scope.selectors.value.granted), w) {
      var path :| OnPath(ctx, scope.selectors.value.granted, path, w);
      assert Takes(ctx, scope, path, w);
    }
  }

  // ----- what an authorized row means -----

  /** The evidence array of a path for a row. */
  function Evidence(ctx: Context, scope: Scope, path: Path, w: Item): set<string>
    requires scope.selectors.Some?
  {
    if Takes(ctx, scope, path, w) then PathRepositories(ctx, scope.selectors.value.granted, path, w) else {}
  }

  /** A path that names repositories is taken exactly when its evidence is not empty, and every slug in it is
      valid and granted. */
  lemma EvidenceMeaning(ctx: Context, scope: Scope, path: Path, w: Item)
    requires scope.selectors.Some?
    ensures path != OrganizationGrant ==> (Takes(ctx, scope, path, w) <==> Evidence(ctx, scope, path, w) != {})
    ensures path == OrganizationGrant ==> Evidence(ctx, scope, path, w) == {}
    ensures forall slug :: slug in Evidence(ctx, scope, path, w) ==> ValidSlug(slug) && scope.selectors.value.granted.Match(slug)
  {
    var granted := scope.selectors.value.granted;
    if path == DirectRepository { assert OwnSlug(ctx, w) in PathRepositories(ctx, granted, path, w); }
    forall slug | slug in Evidence(ctx, scope, path, w) ensures granted.Grants(slug) {
      if path == ProjectOwnership { var r, o, x := ProjectWitness(ctx, granted, w.provider, w.projectId, slug); }
    }
  }

  /** A row with a real repository takes neither repository-less path; a requested selector rules both out. */
  lemma RepositoryDecides(ctx: Context, scope: Scope, w: Item)
    requires scope.selectors.Some? && (UuidPresent(w.repoId) || scope.selectors.value.requested.Some?)
    ensures !Takes(ctx, scope, ProjectOwnership, w) && !Takes(ctx, scope, PullRequestLink, w)
    ensures Evidence(ctx, scope, ProjectOwnership, w) == {} && Evidence(ctx, scope, PullRequestLink, w) == {}
  {
  }

  /** Narrowing never lets a row take a path, or names evidence, that the unnarrowed relation does not; a stored
      item in the candidate set takes the same paths with the same evidence, and the same links are disclosed. */
  lemma NarrowingIsExact(ctx: Context, scope: Scope, path: Path, w: Item)
    requires scope.selectors.Some?
    ensures var wide := ctx.(candidates := Everything);
            && (Takes(ctx, scope, path, w) ==> Takes(wide, scope, path, w))
            && Evidence(ctx, scope, path, w) <= Evidence(wide, scope, path, w)
    ensures var wide := ctx.(candidates := Everything);
            ctx.candidates.Among? && w.id in ctx.candidates.ids && w in ctx.tables.items ==>
              && Takes(ctx, scope, path, w) == Takes(wide, scope, path, w)
              && Evidence(ctx, scope, path, w) == Evidence(wide, scope, path, w)
              && ExcludedProvenances(ctx, scope.selectors.value.granted, w) == ExcludedProvenances(wide, scope.selectors.value.granted, w)
  {
    var wide, granted := ctx.(candidates := Everything), scope.selectors.value.granted;
    ProjectGroupKeptOrDropped(ctx, granted, w.provider, w.projectId);
    LinkGroupKeptOrDropped(ctx, granted, w.id);
    assert OwnSlug(ctx, w) == OwnSlug(wide, w);
    if ctx.candidates.Among? && w.id in ctx.candidates.ids && w in ctx.tables.items {
      assert (w.provider, w.projectId) in CandidateScopes(ctx.tables, ctx.candidates.ids);
      assert forall l :: LinkReaches(ctx, granted, l, w.id) <==> LinkReaches(wide, granted, l, w.id);
    }
  }

  /** The project answers to the value: its id, or its own unambiguous key. */
  predicate AnswersTo(projects: set<Project>, p: Project, value: string) {
    value == p.id || OwnKey(projects, p, Some(value))
  }

  /** The team owns the project by one of its ownership rows. */
  ghost predicate TeamOwns(t: Tables, p: Project, team: string) {
    exists o :: o in t.owners && o.provider == p.provider && o.team == team &&
      (o.projectId == Some(p.id) || OwnKey(t.projects, p, o.projectId) || OwnKey(t.projects, p, o.projectKey))
  }

  /** The evidence of the project path: exactly the granted repositories of the teams that own a project of the
      item's provider which answers to the item's project value. */
  lemma ProjectPathMeaning(ctx: Context, granted: Selectors, provider: string, value: string, slug: string)
    requires IsTable(ctx.tables.projects) && ctx.candidates.Everything?
    ensures slug in ProjectRepositories(ctx, granted, provider, value) <==>
            exists p, x :: p in ctx.tables.projects && p.provider == provider && AnswersTo(ctx.tables.projects, p, value)
              && x in ctx.tables.teamRepos && TeamOwns(ctx.tables, p, x.team) && TeamReaches(ctx, granted, x, x.team)
              && slug == ctx.normalize(ctx.tables.repos[x.repoId])
  {
    var t := ctx.tables;
    if slug in ProjectRepositories(ctx, granted, provider, value) {
      var r, o, x := ProjectWitness(ctx, granted, provider, value, slug);
      var p := ExpansionRow(t.projects, t.projects, r);
      EmittedMeaning(t.projects, p);
      JoinMeaning(t.projects, t.owners, p, o.team);
      assert AnswersTo(t.projects, p, value) && TeamOwns(t, p, x.team);
    }
    forall p, x | p in t.projects && p.provider == provider && AnswersTo(t.projects, p, value)
        && x in t.teamRepos && TeamOwns(t, p, x.team) && TeamReaches(ctx, granted, x, x.team)
        && slug == ctx.normalize(t.repos[x.repoId])
      ensures slug in ProjectRepositories(ctx, granted, provider, value)
    {
      JoinMeaning(t.projects, t.owners, p, x.team);
      EmittedMeaning(t.projects, p);
      var kind := if KeyScopeEmitted(t.projects, p) && value == p.KeyText() then KeyScope else IdScope;
      var r := Row(p.provider, p.id, p.KeyText(), 1, value, kind);
      ExpansionMeaning(t.projects, t.projects, p, value, kind);
      assert r in ScopeRows(ctx) && Owned(p.provider, p.id, x.team) in OwnedProjects(ctx);
    }
  }
}
