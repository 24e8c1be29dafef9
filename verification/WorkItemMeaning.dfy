/** What each authorization path means in rows: exactly which repositories, projects, teams and links open it. */
module WorkItemMeaning {
  import opened Wrappers
  import opened Compact
  import opened RepoKey
  import opened ProjectIdentity
  import opened WorkItemScope

  /** The owner is the text of the slug before its first slash. */
  predicate OwnerOf(owner: string, slug: string) {
    (forall i :: 0 <= i < |owner| ==> owner[i] != '/') && (slug == owner || owner + "/" <= slug)
  }

  /** The slug keeps the key grammar, and the selectors name it or its owner. */
  predicate Covers(s: Selectors, slug: string) {
    ValidSlug(slug) && (slug in s.slugs || exists owner :: owner in s.owners && OwnerOf(owner, slug))
  }

  predicate RealId(id: string) { id != "" && id != "00000000-0000-0000-0000-000000000000" }

  /** The id is a repository's, whose normalized name is the slug. */
  predicate Names(ctx: Context, repoId: string, slug: string) {
    RealId(repoId) && repoId in ctx.tables.repos && slug == ctx.normalize(ctx.tables.repos[repoId])
  }

  lemma {:induction false} FirstPieceFree(s: string)
    ensures OwnerOf(Split(s, '/')[0], s)
  {
    if s != "" && s[0] != '/' {
      FirstPieceFree(s[1..]);
      var rest, owner := Split(s[1..], '/')[0], Split(s, '/')[0];
      assert owner == [s[0]] + rest && s == [s[0]] + s[1..];
      assert rest + "/" <= s[1..] ==> owner + "/" <= s;
    }
  }

  lemma OwnerEndsAtSlash(owner: string, s: string)
    requires OwnerOf(owner, s)
    ensures |owner| <= |s| && owner == s[..|owner|] && (|owner| < |s| ==> s[|owner|] == '/')
    ensures forall i :: 0 <= i < |owner| ==> s[i] != '/'
  {
    if s != owner { assert (owner + "/")[|owner|] == '/'; }
    assert forall i :: 0 <= i < |owner| ==> owner[i] == s[i];
  }

  lemma OwnerIsUnique(a: string, b: string, s: string)
    requires OwnerOf(a, s) && OwnerOf(b, s)
    ensures a == b
  {
    OwnerEndsAtSlash(a, s);
    OwnerEndsAtSlash(b, s);
  }

  /** The code's match is by exact slug or by the text before the first slash. */
  lemma GrantsMeaning(s: Selectors, slug: string)
    ensures s.Grants(slug) <==> Covers(s, slug)
  {
    FirstPieceFree(slug);
    forall owner | owner in s.owners && OwnerOf(owner, slug) ensures owner == Split(slug, '/')[0] {
      OwnerIsUnique(owner, Split(slug, '/')[0], slug);
    }
  }

  /** A native link row of the item names a covered repository of that slug. */
  predicate Linked(ctx: Context, granted: Selectors, itemId: string, slug: string) {
    && itemId != "" && Covers(granted, slug)
    && exists l :: l in ctx.tables.links && l.itemId == itemId && l.provenance == "native" && Names(ctx, l.repoId, slug)
  }

  /** The slugs of the link path: exactly the covered repositories of the item's native link rows. */
  lemma LinkPathMeaning(ctx: Context, granted: Selectors, itemId: string, slug: string)
    ensures slug in LinkRepositories(ctx, granted, itemId) <==>
            (ctx.candidates.Among? ==> itemId in ctx.candidates.ids) && Linked(ctx, granted, itemId, slug)
  {
    forall x ensures granted.Grants(x) <==> Covers(granted, x) { GrantsMeaning(granted, x); }
    if slug in LinkRepositories(ctx, granted, itemId) {
      var l :| l in ctx.tables.links && LinkReaches(ctx, granted, l, itemId) && l.provenance == NATIVE
        && slug == if l.repoId in ctx.tables.repos then ctx.normalize(ctx.tables.repos[l.repoId]) else "";
      assert Names(ctx, l.repoId, slug);
    }
    if (ctx.candidates.Among? ==> itemId in ctx.candidates.ids) && Linked(ctx, granted, itemId, slug) {
      var l :| l in ctx.tables.links && l.itemId == itemId && l.provenance == "native" && Names(ctx, l.repoId, slug);
      assert LinkReaches(ctx, granted, l, itemId);
    }
  }

  /** The provenances disclosed for a repository-less item: exactly those other than native of its link rows that name
      a covered repository. */
  lemma ExcludedMeaning(ctx: Context, granted: Selectors, w: Item, provenance: string)
    ensures provenance in ExcludedProvenances(ctx, granted, w) <==>
            && !RealId(w.repoId) && (ctx.candidates.Among? ==> w.id in ctx.candidates.ids) && w.id != "" && provenance != "native"
            && exists l, slug :: l in ctx.tables.links && l.itemId == w.id && l.provenance == provenance && Names(ctx, l.repoId, slug) && Covers(granted, slug)
  {
    forall x ensures granted.Grants(x) <==> Covers(granted, x) { GrantsMeaning(granted, x); }
    if provenance in ExcludedProvenances(ctx, granted, w) {
      var l :| l in ctx.tables.links && LinkReaches(ctx, granted, l, w.id) && l.provenance != NATIVE && l.provenance == provenance;
      assert Names(ctx, l.repoId, ctx.normalize(ctx.tables.repos[l.repoId]));
    }
    forall l, slug | l in ctx.tables.links && l.itemId == w.id && l.provenance == provenance && Names(ctx, l.repoId, slug) && Covers(granted, slug)
      ensures (ctx.candidates.Among? ==> w.id in ctx.candidates.ids) && w.id != "" ==> LinkReaches(ctx, granted, l, w.id)
    {
    }
  }

  /** A team that owns a project of the item's provider which answers to its project value has a covered repository of
      that slug. */
  ghost predicate Owned(ctx: Context, granted: Selectors, provider: string, value: string, slug: string) {
    && Covers(granted, slug)
    && exists p, x :: p in ctx.tables.projects && p.provider == provider && AnswersTo(ctx.tables.projects, p, value)
         && x in ctx.tables.teamRepos && TeamOwns(ctx.tables, p, x.team) && Names(ctx, x.repoId, slug)
  }

  lemma OwnedMeaning(ctx: Context, granted: Selectors, provider: string, value: string, slug: string)
    requires IsTable(ctx.tables.projects) && ctx.candidates.Everything?
    ensures slug in ProjectRepositories(ctx, granted, provider, value) <==> Owned(ctx, granted, provider, value, slug)
  {
    forall x ensures granted.Grants(x) <==> Covers(granted, x) { GrantsMeaning(granted, x); }
    ProjectPathMeaning(ctx, granted, provider, value, slug);
  }

  /** What opens a path to a row, and with which slugs. */
  ghost predicate Opens(ctx: Context, granted: Selectors, path: Path, w: Item, slug: string) {
    match path
    case OrganizationGrant => false
    case DirectRepository => RealId(w.repoId) && slug == ctx.normalize(if w.repoId in ctx.tables.repos then ctx.tables.repos[w.repoId] else "") && Covers(granted, slug)
    case ProjectOwnership => !RealId(w.repoId) && w.projectId != "" && Owned(ctx, granted, w.provider, w.projectId, slug)
    case PullRequestLink => !RealId(w.repoId) && Linked(ctx, granted, w.id, slug)
  }

  /** Every path of every row: the organization path is the global grant, and any other is taken exactly when a slug
      opens it, with exactly the slugs that do as its evidence. */
  lemma PathMeaning(ctx: Context, granted: Selectors, path: Path, w: Item)
    requires IsTable(ctx.tables.projects) && ctx.candidates.Everything?
    ensures path == OrganizationGrant ==> (OnPath(ctx, granted, path, w) <==> granted.all)
    ensures path != OrganizationGrant ==> (OnPath(ctx, granted, path, w) <==> exists slug :: Opens(ctx, granted, path, w, slug))
    ensures OnPath(ctx, granted, path, w) ==> forall slug :: slug in PathRepositories(ctx, granted, path, w) <==> Opens(ctx, granted, path, w, slug)
  {
    GrantsMeaning(granted, OwnSlug(ctx, w));
    forall slug ensures slug in ProjectRepositories(ctx, granted, w.provider, w.projectId) <==> Owned(ctx, granted, w.provider, w.projectId, slug) {
      OwnedMeaning(ctx, granted, w.provider, w.projectId, slug);
    }
    forall slug ensures slug in LinkRepositories(ctx, granted, w.id) <==> Linked(ctx, granted, w.id, slug) { LinkPathMeaning(ctx, granted, w.id, slug); }
    if path == DirectRepository && OnPath(ctx, granted, path, w) { assert Opens(ctx, granted, path, w, OwnSlug(ctx, w)); }
    if path == ProjectOwnership && OnPath(ctx, granted, path, w) {
      var slug :| slug in ProjectRepositories(ctx, granted, w.provider, w.projectId);
      assert Opens(ctx, granted, path, w, slug);
    }
    if path == PullRequestLink && OnPath(ctx, granted, path, w) {
      var slug :| slug in LinkRepositories(ctx, granted, w.id);
      assert Opens(ctx, granted, path, w, slug);
    }
  }

  /** What a scope demands besides a path, in rows: the ids, and for a requested selector a real repository with a
      name, any if all are requested and otherwise a covered one. */
  lemma RestrictedMeaning(ctx: Context, scope: Scope, w: Item)
    ensures Restricted(ctx, scope, w) <==>
            && (scope.grantedIds.Some? ==> w.repoId in scope.grantedIds.value)
            && (scope.requestedIds.Some? ==> w.repoId in scope.requestedIds.value)
            && (scope.selectors.Some? && scope.selectors.value.requested.Some? ==>
                  var requested := scope.selectors.value.requested.value;
                  RealId(w.repoId) && exists slug :: slug != "" && Named(ctx, w.repoId, slug) && (requested.all || Covers(requested, slug)))
  {
    if scope.selectors.Some? && scope.selectors.value.requested.Some? {
      GrantsMeaning(scope.selectors.value.requested.value, OwnSlug(ctx, w));
      assert Named(ctx, w.repoId, OwnSlug(ctx, w));
    }
  }

  /** The normalized name of the repository with the id, of no name when there is none. */
  predicate Named(ctx: Context, repoId: string, slug: string) {
    slug == ctx.normalize(if repoId in ctx.tables.repos then ctx.tables.repos[repoId] else "")
  }
}
