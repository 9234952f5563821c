/**
  What catalog authoring guarantees over every history of commands, and what an admitted
  job may rely on later.
*/
module CatalogTheorems {
  import opened Wrappers
  import opened CatalogModels
  import opened CatalogHistory

  // ----- snapshots name themselves -----

  lemma StepSelfNamed(db: Db, c: Command)
    requires SelfNamed(db)
    ensures SelfNamed(After(db, c))
    ensures forall v | v in db.snapshots :: v in After(db, c).snapshots && After(db, c).snapshots[v] == db.snapshots[v]
  {
    SnapshotsOnlyGrow(db, c);
    match c
    case Publish(target, name, snapshot, now) =>
    case Rollback(source, name, now) =>
    case SeedSnapshot(catalog, now) =>
    case _ => assert After(db, c).snapshots == db.snapshots;
  }

  /** No command changes or removes a snapshot; the authoring commands do not add one either. */
  lemma SnapshotsOnlyGrow(db: Db, c: Command)
    ensures forall v | v in db.snapshots :: v in After(db, c).snapshots && After(db, c).snapshots[v] == db.snapshots[v]
    ensures c.CreateRole? || c.PatchRole? || c.ArchiveRole? || c.RestoreRole? || c.CreateDraft? || c.SeedRole?
            || c.SeedRecommendations? ==>
      After(db, c).snapshots == db.snapshots
  {
    match c
    case SeedRole(newRole, newVersion, seed) => SeedLeavesSnapshots(db, newRole, newVersion, seed);
    case _ =>
  }

  lemma SeedLeavesSnapshots(db: Db, newRole: RoleId, newVersion: VersionId, seed: JobRole)
    ensures AfterSeed(db, newRole, newVersion, seed).Some? ==>
      AfterSeed(db, newRole, newVersion, seed).value.snapshots == db.snapshots
  {
  }

  /** In every history, rollbacks of rollbacks included, embedded versions resolve to the identical snapshot. */
  lemma {:induction false} HistorySelfNamed(db: Db, commands: seq<Command>)
    requires SelfNamed(db)
    ensures SelfNamed(History(db, commands))
    ensures forall v | v in db.snapshots ::
      v in History(db, commands).snapshots && History(db, commands).snapshots[v] == db.snapshots[v]
  {
    if commands != [] {
      HistorySelfNamed(db, commands[..|commands| - 1]);
      StepSelfNamed(History(db, commands[..|commands| - 1]), commands[|commands| - 1]);
    }
  }

  // ----- admission and reload -----

  /** The first role of a list with the slug, and the first that is also active. */
  function FindRole(roles: seq<JobRole>, slug: string): Option<JobRole> {
    if roles == [] then None else if roles[0].slug == slug then Some(roles[0]) else FindRole(roles[1..], slug)
  }

  function FindActiveRole(roles: seq<JobRole>, slug: string): Option<JobRole> {
    if roles == [] then None
    else if roles[0].slug == slug && roles[0].active then Some(roles[0])
    else FindActiveRole(roles[1..], slug)
  }

  /** The newest snapshot; several may carry the same time. */
  ghost predicate Latest(db: Db, v: string) {
    v in db.snapshots && forall w | w in db.snapshots :: db.snapshots[w].publishedAt <= db.snapshots[v].publishedAt
  }

  datatype Admission = Admission(catalogVersion: string, role: JobRole)

  /** The upload route refuses a seniority that the role does not list, unless it lists none. */
  predicate SeniorityOffered(role: JobRole, seniority: Option<string>) {
    seniority in {None, Some(""), Some("all")} || role.seniorities == [] || seniority in role.seniorities
  }

  /** What the upload route records for a job admitted under snapshot row `v`. */
  ghost function Admit(db: Db, v: string, slug: string, seniority: Option<string>): Option<Admission>
    requires v in db.snapshots
  {
    var catalog := db.snapshots[v].snapshot;
    var role := FindActiveRole(catalog.roles, slug);
    if catalog.version == "" || role.None? || !SeniorityOffered(role.value, seniority) then None
    else Some(Admission(catalog.version, role.value))
  }

  /** Entry `i` is active and has the slug, and no entry before it does. */
  ghost predicate FirstActive(roles: seq<JobRole>, slug: string, i: nat) {
    && i < |roles| && roles[i].slug == slug && roles[i].active
    && forall j | 0 <= j < i :: !(roles[j].slug == slug && roles[j].active)
  }

  lemma {:induction false} FindActiveFirst(roles: seq<JobRole>, slug: string)
    ensures FindActiveRole(roles, slug).Some? ==>
      exists i: nat :: FirstActive(roles, slug, i) && FindActiveRole(roles, slug).value == roles[i]
    ensures FindActiveRole(roles, slug).None? ==> forall i: nat :: !FirstActive(roles, slug, i)
  {
    if roles != [] {
      FindActiveFirst(roles[1..], slug);
      if roles[0].slug == slug && roles[0].active {
        assert FirstActive(roles, slug, 0);
      } else if i: nat :| FirstActive(roles[1..], slug, i) && FindActiveRole(roles[1..], slug) == Some(roles[1..][i]) {
        assert FirstActive(roles, slug, i + 1);
      } else {
        forall i: nat | FirstActive(roles, slug, i)
          ensures i > 0 && FirstActive(roles[1..], slug, i - 1)
        {
        }
      }
    }
  }

  /**
    An upload is admitted exactly when the snapshot has a version and lists an active role
    of the slug whose first such entry offers the seniority: none was asked for, or "all",
    or the entry lists none at all, or lists it. It records that version and that entry.
  */
  lemma AdmissionIff(db: Db, v: string, slug: string, seniority: Option<string>, admission: Admission)
    requires v in db.snapshots
    ensures var catalog := db.snapshots[v].snapshot;
      Admit(db, v, slug, seniority) == Some(admission) <==>
        && admission.catalogVersion == catalog.version != ""
        && exists i: nat ::
             && FirstActive(catalog.roles, slug, i) && admission.role == catalog.roles[i]
             && (seniority.None? || seniority.value in {"", "all"} || catalog.roles[i].seniorities == []
                 || exists k :: 0 <= k < |catalog.roles[i].seniorities| && catalog.roles[i].seniorities[k] == seniority)
  {
    FindActiveFirst(db.snapshots[v].snapshot.roles, slug);
  }

  /** `loadCatalogForJob`: by the recorded version and slug. */
  ghost function Load(db: Db, catalogVersion: string, slug: string): Option<(Catalog, JobRole)> {
    if catalogVersion !in db.snapshots then None
    else
      var catalog := db.snapshots[catalogVersion].snapshot;
      var role := FindRole(catalog.roles, slug);
      if role.None? then None else Some((catalog, role.value))
  }

  lemma {:induction false} FindActiveIsListed(roles: seq<JobRole>, slug: string)
    ensures FindActiveRole(roles, slug).Some? ==>
      && FindActiveRole(roles, slug).value in roles && FindActiveRole(roles, slug).value.slug == slug
      && FindActiveRole(roles, slug).value.active && FindRole(roles, slug).Some?
    ensures FindRole(roles, slug).Some? ==>
      FindRole(roles, slug).value in roles && FindRole(roles, slug).value.slug == slug
  {
    if roles != [] {
      FindActiveIsListed(roles[1..], slug);
    }
  }

  /**
    Whatever is published, rolled back or authored between admission and processing, the
    worker loads the very catalog the job was admitted under. It loads the admitted role
    exactly when the first role with that slug is an active one, which distinct slugs
    guarantee; the identity check of the worker then passes.
  */
  lemma JobReloadsItsCatalog(db: Db, commands: seq<Command>, v: string, slug: string, seniority: Option<string>)
    requires SelfNamed(db) && Latest(db, v) && Admit(db, v, slug, seniority).Some?
    ensures var admitted := Admit(db, v, slug, seniority).value;
      var loaded := Load(History(db, commands), admitted.catalogVersion, slug);
      var roles := db.snapshots[v].snapshot.roles;
      && loaded.Some?
      && loaded.value.0 == db.snapshots[v].snapshot
      && loaded.value.0.version == admitted.catalogVersion
      && loaded.value.1.slug == slug
      && (loaded.value.1 == admitted.role <==> FindRole(roles, slug).Some? && FindRole(roles, slug).value.active)
      && (DistinctSlugs(roles) ==> loaded.value.1 == admitted.role)
  {
    HistorySelfNamed(db, commands);
    var roles := db.snapshots[v].snapshot.roles;
    FindActiveIsListed(roles, slug);
    FirstIsActive(roles, slug);
    if DistinctSlugs(roles) {
      var i :| 0 <= i < |roles| && roles[i] == FindRole(roles, slug).value;
      var j :| 0 <= j < |roles| && roles[j] == FindActiveRole(roles, slug).value;
    }
  }

  /** The first active role with a slug is the first with that slug exactly when the latter is active. */
  lemma {:induction false} FirstIsActive(roles: seq<JobRole>, slug: string)
    ensures FindActiveRole(roles, slug).Some? ==>
      && FindRole(roles, slug).Some?
      && (FindRole(roles, slug) == FindActiveRole(roles, slug) <==> FindRole(roles, slug).value.active)
  {
    FindActiveIsListed(roles, slug);
    if roles != [] && roles[0].slug != slug {
      FirstIsActive(roles[1..], slug);
    }
  }

  // ----- authoring -----

  /** What a publication does to one version row. */
  lemma PublishedRow(versions: map<VersionId, VersionRow>, target: VersionId, v: VersionId)
    requires target in versions && v in versions
    ensures var row := AfterPublish(versions, target)[v];
      && row == versions[v].(status := row.status)
      && (row.status == Published <==>
            v == target || (versions[v].status == Published && versions[v].role != versions[target].role))
  {
  }

  lemma PublishLeavesOnlyTarget(db: Db, target: VersionId)
    requires AtMostOnePublished(db) && target in db.versions
    ensures AtMostOnePublished(db.(versions := AfterPublish(db.versions, target)))
  {
    var after := AfterPublish(db.versions, target);
    forall v, w | v in after && w in after && after[v].status == Published && after[w].status == Published
                  && after[v].role == after[w].role
      ensures v == w
    {
      PublishedRow(db.versions, target, v);
      PublishedRow(db.versions, target, w);
    }
  }

  lemma PublishKeepsPublished(db: Db, target: VersionId, r: RoleId)
    requires target in db.versions && HasPublished(db, r)
    ensures HasPublished(db.(versions := AfterPublish(db.versions, target)), r)
  {
    var after := db.(versions := AfterPublish(db.versions, target));
    var v :| PublishedFor(db, r, v);
    PublishedRow(db.versions, target, v);
    PublishedRow(db.versions, target, target);
    assert PublishedFor(after, r, if r == db.versions[target].role then target else v);
  }

  lemma PublishKeepsOne(db: Db, target: VersionId)
    requires AuthoringInv(db) && target in db.versions
    ensures AuthoringInv(db.(versions := AfterPublish(db.versions, target)))
  {
    var after := db.(versions := AfterPublish(db.versions, target));
    PublishLeavesOnlyTarget(db, target);
    forall r | r in after.roles && after.roles[r].active
      ensures HasPublished(after, r)
    {
      PublishKeepsPublished(db, target, r);
    }
    forall v | v in after.versions
      ensures after.versions[v] == db.versions[v].(status := after.versions[v].status)
    {
      PublishedRow(db.versions, target, v);
    }
  }

  lemma RoleWritten(db: Db, id: RoleId, row: RoleRow)
    requires AuthoringInv(db)
    requires row.archived ==> !row.active
    requires row.active ==> HasPublished(db, id)
    requires !SlugTaken(db, row.slug, {id})
    ensures AuthoringInv(db.(roles := db.roles[id := row]))
  {
    var after := db.(roles := db.roles[id := row]);
    forall r | r in after.roles && after.roles[r].active
      ensures HasPublished(after, r)
    {
      var v :| PublishedFor(db, r, v);
      assert PublishedFor(after, r, v);
    }
    forall r, q | r in after.roles && q in after.roles && after.roles[r].slug == after.roles[q].slug
      ensures r == q
    {
    }
  }

  lemma NextVersionUnique(db: Db, role: RoleId, seniority: string, m: nat, n: nat)
    requires NextVersion(db, role, seniority, m) && NextVersion(db, role, seniority, n)
    ensures m == n
  {
  }

  lemma {:induction false} NextVersionExistsFrom(db: Db, role: RoleId, seniority: string, ids: set<VersionId>)
      returns (n: nat)
    requires ids <= db.versions.Keys
    ensures 0 < n
    ensures forall v | v in ids && db.versions[v].role == role && db.versions[v].seniority == seniority ::
      db.versions[v].version < n
    ensures n == 1 || exists v :: v in ids && db.versions[v].role == role && db.versions[v].seniority == seniority
                                  && db.versions[v].version == n - 1
  {
    if ids == {} {
      n := 1;
    } else {
      var v :| v in ids;
      n := NextVersionExistsFrom(db, role, seniority, ids - {v});
      if db.versions[v].role == role && db.versions[v].seniority == seniority && n <= db.versions[v].version {
        n := db.versions[v].version + 1;
      }
    }
  }

  lemma NextVersionExists(db: Db, role: RoleId, seniority: string)
    ensures NextVersion(db, role, seniority, NextVersionNumber(db, role, seniority))
  {
    var n := NextVersionExistsFrom(db, role, seniority, db.versions.Keys);
    assert NextVersion(db, role, seniority, n);
  }

  lemma StillPublished(db: Db, after: Db, r: RoleId)
    requires HasPublished(db, r) && forall v: VersionId | PublishedFor(db, r, v) :: PublishedFor(after, r, v)
    ensures HasPublished(after, r)
  {
    var v :| PublishedFor(db, r, v);
    assert PublishedFor(after, r, v);
  }

  lemma RolesWithVersion(db: Db, v: VersionId, row: VersionRow)
    requires RolesInv(db) && v !in db.versions && row.role in db.roles
    requires forall w | w in db.versions && db.versions[w].role == row.role
                        && db.versions[w].seniority == row.seniority :: db.versions[w].version != row.version
    ensures RolesInv(db.(versions := db.versions[v := row]))
  {
    var after := db.(versions := db.versions[v := row]);
    forall r | r in after.roles && after.roles[r].active
      ensures HasPublished(after, r)
    {
      StillPublished(db, after, r);
    }
  }

  lemma OneWithVersion(db: Db, v: VersionId, row: VersionRow)
    requires AtMostOnePublished(db) && v !in db.versions
    requires row.status == Published ==> !HasPublished(db, row.role)
    ensures AtMostOnePublished(db.(versions := db.versions[v := row]))
  {
    forall w | w in db.versions && db.versions[w].status == Published && db.versions[w].role == row.role
      ensures row.status != Published
    {
      assert PublishedFor(db, row.role, w);
    }
  }

  lemma VersionAdded(db: Db, v: VersionId, row: VersionRow)
    requires AuthoringInv(db) && v !in db.versions && row.role in db.roles
    requires row.status == Published ==> !HasPublished(db, row.role)
    requires forall w | w in db.versions && db.versions[w].role == row.role
                        && db.versions[w].seniority == row.seniority :: db.versions[w].version != row.version
    ensures AuthoringInv(db.(versions := db.versions[v := row]))
  {
    RolesWithVersion(db, v, row);
    OneWithVersion(db, v, row);
  }

  /** Every handler keeps the authoring invariant. */
  lemma HandlerKeepsAuthoring(db: Db, c: Command)
    requires AuthoringInv(db) && !c.SeedRole?
    ensures AuthoringInv(After(db, c))
  {
    match c
    case CreateRole(id, slug, title) =>
      if !(id in db.roles || SlugTaken(db, slug, {})) {
        RoleWritten(db, id, RoleRow(slug, title, false, false));
      }
    case PatchRole(id, newSlug, newTitle, active) => PatchKeeps(db, id, newSlug, newTitle, active);
    case ArchiveRole(id) =>
      if id in db.roles {
        RoleWritten(db, id, db.roles[id].(active := false, archived := true));
      }
    case RestoreRole(id) =>
      if id in db.roles {
        RoleWritten(db, id, db.roles[id].(active := false, archived := false));
      }
    case CreateDraft(draft, role, seniority) =>
      if !(draft in db.versions || role !in db.roles) {
        NextVersionExists(db, role, seniority);
        VersionAdded(db, draft, VersionRow(role, seniority, Draft, NextVersionNumber(db, role, seniority), []));
      }
    case Publish(target, name, snapshot, now) =>
      if target in db.versions {
        PublishKeepsOne(db, target);
        AuthoringIgnoresSnapshots(db.(versions := AfterPublish(db.versions, target)),
                                  db.snapshots[name := SnapshotRow(snapshot, now)], db.recommendations);
      }
    case Rollback(source, name, now) =>
      if source in db.snapshots {
        AuthoringIgnoresSnapshots(db, db.snapshots[name := SnapshotRow(db.snapshots[source].snapshot, now)],
                                  db.recommendations);
      }
    case SeedRecommendations(ids) => AuthoringIgnoresSnapshots(db, db.snapshots, db.recommendations + ids);
    case SeedSnapshot(catalog, now) =>
      AuthoringIgnoresSnapshots(db, db.snapshots[catalog.version := SnapshotRow(catalog, now)], db.recommendations);
  }

  /** The authoring invariant is about roles and versions alone. */
  lemma AuthoringIgnoresSnapshots(db: Db, snapshots: map<string, SnapshotRow>, recommendations: set<string>)
    requires AuthoringInv(db)
    ensures AuthoringInv(Db(db.roles, db.versions, snapshots, recommendations))
  {
    var after := Db(db.roles, db.versions, snapshots, recommendations);
    forall r | r in after.roles && after.roles[r].active
      ensures HasPublished(after, r)
    {
      var v :| PublishedFor(db, r, v);
      assert PublishedFor(after, r, v);
    }
  }

  lemma PatchKeeps(db: Db, id: RoleId, newSlug: Option<string>, newTitle: Option<string>, active: Option<bool>)
    requires AuthoringInv(db)
    ensures AuthoringInv(After(db, PatchRole(id, newSlug, newTitle, active)))
  {
    if id in db.roles && After(db, PatchRole(id, newSlug, newTitle, active)) != db {
      RoleWritten(db, id, Patched(db.roles[id], newSlug, newTitle, active));
    }
  }

  // ----- the seed -----

  /**
    The guard under which re-seeding a role is harmless: the role is new or unpublished,
    its version ("all", 1) exists, or it has an "all" version published, which makes the
    unique index abort the seed.
  */
  ghost predicate SeedClean(db: Db, seed: JobRole) {
    forall r | r in db.roles && db.roles[r].slug == seed.slug ::
      (exists v :: FirstAll(db, r, v)) || !HasPublished(db, r) || PublishedAll(db, r)
  }

  lemma SeedVersionKeeps(db: Db, role: RoleId, newVersion: VersionId, rules: seq<Requirement>)
    requires AuthoringInv(db) && role in db.roles && newVersion !in db.versions
    ensures var after := SeedVersion(db, role, newVersion, rules);
      after.Some? ==>
        && RolesInv(after.value)
        && (AtMostOnePublished(after.value) <==> (exists v :: FirstAll(db, role, v)) || !HasPublished(db, role))
  {
    if exists v :: FirstAll(db, role, v) {
      SeedFirstAll(db, role, newVersion, rules);
    } else if !PublishedAll(db, role) {
      SeedVersionAdded(db, role, newVersion, rules);
    }
  }

  lemma SeedFirstAll(db: Db, role: RoleId, newVersion: VersionId, rules: seq<Requirement>)
    requires AuthoringInv(db) && exists v :: FirstAll(db, role, v)
    ensures var after := SeedVersion(db, role, newVersion, rules);
      after.Some? && AuthoringInv(after.value)
  {
    RulesWrittenAnywhere(db, rules);
  }

  lemma SeedVersionAdded(db: Db, role: RoleId, newVersion: VersionId, rules: seq<Requirement>)
    requires AuthoringInv(db) && role in db.roles && newVersion !in db.versions
    requires !exists v :: FirstAll(db, role, v)
    ensures var after := db.(versions := db.versions[newVersion := VersionRow(role, "all", Published, 1, rules)]);
      RolesInv(after) && (AtMostOnePublished(after) <==> !HasPublished(db, role))
  {
    var row := VersionRow(role, "all", Published, 1, rules);
    var after := db.(versions := db.versions[newVersion := row]);
    forall w | w in db.versions && db.versions[w].role == role && db.versions[w].seniority == "all"
      ensures db.versions[w].version != 1
    {
      assert !FirstAll(db, role, w);
    }
    if w :| PublishedFor(db, role, w) {
      assert after.versions[w].status == Published && after.versions[newVersion].status == Published;
      RolesWithVersion(db, newVersion, row);
    } else {
      VersionAdded(db, newVersion, row);
    }
  }

  lemma RulesWritten(db: Db, v: VersionId, rules: seq<Requirement>)
    requires AuthoringInv(db) && v in db.versions
    ensures AuthoringInv(db.(versions := db.versions[v := db.versions[v].(rules := rules)]))
  {
    var after := db.(versions := db.versions[v := db.versions[v].(rules := rules)]);
    forall r | r in after.roles && after.roles[r].active
      ensures HasPublished(after, r)
    {
      StillPublished(db, after, r);
    }
  }

  lemma RulesWrittenAnywhere(db: Db, rules: seq<Requirement>)
    requires AuthoringInv(db)
    ensures forall v | v in db.versions ::
      AuthoringInv(db.(versions := db.versions[v := db.versions[v].(rules := rules)]))
  {
    forall v | v in db.versions
      ensures AuthoringInv(db.(versions := db.versions[v := db.versions[v].(rules := rules)]))
    {
      RulesWritten(db, v, rules);
    }
  }

  lemma SeedExisting(db: Db, r: RoleId, newVersion: VersionId, seed: JobRole)
    requires AuthoringInv(db) && r in db.roles && db.roles[r].slug == seed.slug && newVersion !in db.versions
    ensures var titled := db.(roles := db.roles[r := db.roles[r].(title := seed.title)]);
      var after := SeedVersion(titled, r, newVersion, seed.requirements);
      && (after.Some? ==> RolesInv(after.value))
      && (after.None? ==> SeedClean(db, seed))
      && (after.Some? ==> (AtMostOnePublished(after.value) <==> SeedClean(db, seed)))
  {
    var titled := db.(roles := db.roles[r := db.roles[r].(title := seed.title)]);
    if db.roles[r].active {
      assert HasPublished(db, r);
    }
    RoleWritten(db, r, db.roles[r].(title := seed.title));
    SeedVersionKeeps(titled, r, newVersion, seed.requirements);
    SameVersions(db, titled, r);
    assert SeedClean(db, seed) <==> (exists v :: FirstAll(db, r, v)) || !HasPublished(db, r) || PublishedAll(db, r);
  }

  lemma SameVersions(a: Db, b: Db, r: RoleId)
    requires a.versions == b.versions
    ensures HasPublished(a, r) <==> HasPublished(b, r)
    ensures PublishedAll(a, r) <==> PublishedAll(b, r)
    ensures (exists v :: FirstAll(a, r, v)) <==> exists v :: FirstAll(b, r, v)
  {
    forall v
      ensures PublishedFor(a, r, v) <==> PublishedFor(b, r, v)
      ensures FirstAll(a, r, v) <==> FirstAll(b, r, v)
    {
    }
  }

  lemma SeedFresh(db: Db, newRole: RoleId, newVersion: VersionId, seed: JobRole)
    requires AuthoringInv(db) && newRole !in db.roles && newVersion !in db.versions && !SlugTaken(db, seed.slug, {})
    ensures var withRole := db.(roles := db.roles[newRole := RoleRow(seed.slug, seed.title, seed.active, false)]);
      var after := SeedVersion(withRole, newRole, newVersion, seed.requirements);
      after.Some? && AuthoringInv(after.value)
  {
    var withRole := db.(roles := db.roles[newRole := RoleRow(seed.slug, seed.title, seed.active, false)]);
    forall v: VersionId
      ensures !FirstAll(withRole, newRole, v) && !PublishedFor(withRole, newRole, v)
    {
    }
    FreshRoleWithVersion(db, newRole, newVersion, seed);
  }

  lemma FreshRoleWithVersion(db: Db, newRole: RoleId, newVersion: VersionId, seed: JobRole)
    requires AuthoringInv(db) && newRole !in db.roles && newVersion !in db.versions && !SlugTaken(db, seed.slug, {})
    ensures AuthoringInv(db.(
      roles := db.roles[newRole := RoleRow(seed.slug, seed.title, seed.active, false)],
      versions := db.versions[newVersion := VersionRow(newRole, "all", Published, 1, seed.requirements)]))
  {
    var role := RoleRow(seed.slug, seed.title, seed.active, false);
    var row := VersionRow(newRole, "all", Published, 1, seed.requirements);
    var inactive := db.(roles := db.roles[newRole := role.(active := false)]);
    RoleWritten(db, newRole, role.(active := false));
    assert !HasPublished(inactive, newRole);
    VersionAdded(inactive, newVersion, row);
    var published := inactive.(versions := inactive.versions[newVersion := row]);
    assert PublishedFor(published, newRole, newVersion);
    RoleWritten(published, newRole, role);
    assert published.roles[newRole := role] == db.roles[newRole := role];
  }

  /** Seeding a role leaves at most one published version per role exactly under its guard. */
  lemma SeedKeepsOnePublishedIff(db: Db, newRole: RoleId, newVersion: VersionId, seed: JobRole)
    requires AuthoringInv(db) && newRole !in db.roles && newVersion !in db.versions
    ensures RolesInv(After(db, SeedRole(newRole, newVersion, seed)))
    ensures AtMostOnePublished(After(db, SeedRole(newRole, newVersion, seed))) <==> SeedClean(db, seed)
  {
    if r :| r in db.roles && db.roles[r].slug == seed.slug {
      var chosen := SeededRole(db, newRole, newVersion, seed);
      SeedExisting(db, chosen, newVersion, seed);
    } else {
      assert !SlugTaken(db, seed.slug, {});
      SeedFresh(db, newRole, newVersion, seed);
    }
  }

  /** The role with the slug whose title the seed updates. */
  lemma SeededRole(db: Db, newRole: RoleId, newVersion: VersionId, seed: JobRole) returns (chosen: RoleId)
    requires exists r :: r in db.roles && db.roles[r].slug == seed.slug
    ensures chosen in db.roles && db.roles[chosen].slug == seed.slug
    ensures AfterSeed(db, newRole, newVersion, seed)
            == SeedVersion(db.(roles := db.roles[chosen := db.roles[chosen].(title := seed.title)]), chosen, newVersion,
                           seed.requirements)
  {
    chosen :| chosen in db.roles && db.roles[chosen].slug == seed.slug
      && AfterSeed(db, newRole, newVersion, seed)
         == SeedVersion(db.(roles := db.roles[chosen := db.roles[chosen].(title := seed.title)]), chosen, newVersion,
                        seed.requirements);
  }

  /**
    The guard is not always met: after an administrator published a "senior" version of a
    role, seeding the same slug gives that role a second published version.
  */
  lemma SeedCanPublishTwice(seed: JobRole)
    requires seed.slug == "dev"
    ensures var snapshot := Catalog("c", "1.0.0", [JobRole("dev", "Dev", false, [Some("senior")], [])], []);
      var before := History(Empty,
        [CreateRole(0, "dev", "Dev"), CreateDraft(0, 0, "senior"), Publish(0, "c", snapshot, 0)]);
      AuthoringInv(before) && !AtMostOnePublished(After(before, SeedRole(1, 1, seed)))
  {
    var snapshot := Catalog("c", "1.0.0", [JobRole("dev", "Dev", false, [Some("senior")], [])], []);
    var c0, c1, c2 := CreateRole(0, "dev", "Dev"), CreateDraft(0, 0, "senior"), Publish(0, "c", snapshot, 0);
    ThreeCommands(c0, c1, c2);
    SeniorDraft();
    SeniorPublished(After(After(Empty, c0), c1), snapshot);
    SeniorUnclean(After(After(After(Empty, c0), c1), c2), seed);
  }

  ghost predicate SeniorState(db: Db, status: VersionStatus) {
    && AuthoringInv(db) && db.recommendations == {}
    && db.roles == map[0 := RoleRow("dev", "Dev", false, false)]
    && db.versions.Keys == {0} && db.versions[0].(version := 1) == VersionRow(0, "senior", status, 1, [])
  }

  lemma SeniorDraft()
    ensures var db := After(After(Empty, CreateRole(0, "dev", "Dev")), CreateDraft(0, 0, "senior"));
      SeniorState(db, Draft) && db.snapshots == map[]
  {
    HandlerKeepsAuthoring(Empty, CreateRole(0, "dev", "Dev"));
    HandlerKeepsAuthoring(After(Empty, CreateRole(0, "dev", "Dev")), CreateDraft(0, 0, "senior"));
  }

  lemma SeniorPublished(db: Db, snapshot: Catalog)
    requires SeniorState(db, Draft) && db.snapshots == map[]
    requires snapshot == Catalog("c", "1.0.0", [JobRole("dev", "Dev", false, [Some("senior")], [])], [])
    ensures SeniorState(After(db, Publish(0, "c", snapshot, 0)), Published)
  {
    HandlerKeepsAuthoring(db, Publish(0, "c", snapshot, 0));
    SeniorSnapshot(db, snapshot);
  }

  lemma SeniorUnclean(db: Db, seed: JobRole)
    requires SeniorState(db, Published) && seed.slug == "dev"
    ensures !AtMostOnePublished(After(db, SeedRole(1, 1, seed)))
  {
    assert PublishedFor(db, 0, 0);
    assert !SeedClean(db, seed);
    SeedKeepsOnePublishedIff(db, 1, 1, seed);
  }

  lemma ThreeCommands(a: Command, b: Command, c: Command)
    ensures History(Empty, [a, b, c]) == After(After(After(Empty, a), b), c)
  {
    assert [a, b, c][..2] == [a, b] && [a, b][..1] == [a] && [a][..0] == [];
    assert History(Empty, [a]) == After(History(Empty, []), a);
    assert History(Empty, [a, b]) == After(History(Empty, [a]), b);
  }

  /** The snapshot built for one inactive role with one published "senior" version. */
  lemma SeniorSnapshot(db: Db, snapshot: Catalog)
    requires db.recommendations == {}
    requires db.roles == map[0 := RoleRow("dev", "Dev", false, false)]
    requires 0 in db.versions && db.versions.Keys == {0}
    requires db.versions[0].(version := 1) == VersionRow(0, "senior", Draft, 1, [])
    requires snapshot == Catalog("c", "1.0.0", [JobRole("dev", "Dev", false, [Some("senior")], [])], [])
    ensures BuiltFrom(db.(versions := AfterPublish(db.versions, 0)), "c", snapshot)
  {
    var published := db.(versions := AfterPublish(db.versions, 0));
    var rows := [JoinedRow(0, Some(0))];
    assert PublishedFor(published, 0, 0);
    assert QueryResult(published, rows) by {
      forall row | Joins(published, row)
        ensures row == rows[0]
      {
      }
    }
    assert TopPublished(published, 0, 0);
    assert EntryOf(published, rows[0], snapshot.roles[0]);
    assert rows[..0] == [] && snapshot.roles[..0] == [];
    assert Entries(published, [], []);
    assert Entries(published, rows, snapshot.roles);
  }

  // ----- what a built snapshot contains -----

  lemma SameRoleSameRow(db: Db, a: JoinedRow, b: JoinedRow)
    requires AtMostOnePublished(db) && Joins(db, a) && Joins(db, b)
    ensures a.role == b.role ==> a == b
  {
    if a.version.Some? {
      assert PublishedFor(db, a.role, a.version.value);
    }
    if b.version.Some? {
      assert PublishedFor(db, b.role, b.version.value);
    }
  }

  lemma JoinedRolesDistinct(db: Db, rows: seq<JoinedRow>)
    requires AtMostOnePublished(db) && QueryResult(db, rows)
    ensures forall i, j | 0 <= i < j < |rows| :: rows[i].role != rows[j].role
  {
    forall i, j | 0 <= i < j < |rows|
      ensures rows[i].role != rows[j].role
    {
      SameRoleSameRow(db, rows[i], rows[j]);
    }
  }

  ghost predicate InRoles(db: Db, rows: seq<JoinedRow>) {
    forall i | 0 <= i < |rows| :: rows[i].role in db.roles
  }

  ghost predicate FromRow(db: Db, rows: seq<JoinedRow>, entry: JobRole)
    requires InRoles(db, rows)
  {
    exists i :: 0 <= i < |rows| && Kept(db, rows[i]) && EntryOf(db, rows[i], entry)
  }

  ghost predicate InEntries(db: Db, row: JoinedRow, entries: seq<JobRole>)
    requires row.role in db.roles
  {
    exists e :: 0 <= e < |entries| && EntryOf(db, row, entries[e])
  }

  lemma FromMoreRows(db: Db, rows: seq<JoinedRow>, last: JoinedRow, entry: JobRole)
    requires InRoles(db, rows) && last.role in db.roles && FromRow(db, rows, entry)
    ensures InRoles(db, rows + [last]) && FromRow(db, rows + [last], entry)
  {
    var i :| 0 <= i < |rows| && Kept(db, rows[i]) && EntryOf(db, rows[i], entry);
    assert (rows + [last])[i] == rows[i];
  }

  /** Every entry comes from a kept row. */
  lemma {:induction false} EntrySource(db: Db, rows: seq<JoinedRow>, entries: seq<JobRole>, e: nat)
    requires InRoles(db, rows) && Entries(db, rows, entries) && e < |entries|
    ensures FromRow(db, rows, entries[e])
  {
    var n, last := |rows| - 1, rows[|rows| - 1];
    assert rows == rows[..n] + [last];
    if Kept(db, last) && e == |entries| - 1 {
      assert EntryOf(db, rows[n], entries[e]);
    } else {
      EntrySource(db, rows[..n], if Kept(db, last) then entries[..|entries| - 1] else entries, e);
      FromMoreRows(db, rows[..n], last, entries[e]);
    }
  }

  /** Every kept row has an entry. */
  lemma {:induction false} RowListed(db: Db, rows: seq<JoinedRow>, entries: seq<JobRole>, i: nat)
    requires InRoles(db, rows) && Entries(db, rows, entries) && i < |rows| && Kept(db, rows[i])
    ensures InEntries(db, rows[i], entries)
  {
    var n, last := |rows| - 1, rows[|rows| - 1];
    if i == n {
      assert EntryOf(db, rows[i], entries[|entries| - 1]);
    } else {
      var fewer := if Kept(db, last) then entries[..|entries| - 1] else entries;
      RowListed(db, rows[..n], fewer, i);
      var e :| 0 <= e < |fewer| && EntryOf(db, rows[..n][i], fewer[e]);
      assert entries[e] == fewer[e];
    }
  }

  lemma OtherSlug(db: Db, rows: seq<JoinedRow>, entries: seq<JobRole>, e: nat)
    requires RolesInv(db) && InRoles(db, rows) && Entries(db, rows, entries) && rows != []
    requires forall i, j | 0 <= i < j < |rows| :: rows[i].role != rows[j].role
    requires Kept(db, rows[|rows| - 1]) && e < |entries| - 1
    ensures entries[e].slug != entries[|entries| - 1].slug
  {
    var n, m := |rows| - 1, |entries| - 1;
    EntrySource(db, rows[..n], entries[..m], e);
    var i :| 0 <= i < n && Kept(db, rows[..n][i]) && EntryOf(db, rows[..n][i], entries[..m][e]);
    assert rows[i].role != rows[n].role;
  }

  /** The entries inherit the distinct slugs of the rows' roles. */
  lemma {:induction false} EntrySlugsDistinct(db: Db, rows: seq<JoinedRow>, entries: seq<JobRole>)
    requires RolesInv(db) && InRoles(db, rows) && Entries(db, rows, entries)
    requires forall i, j | 0 <= i < j < |rows| :: rows[i].role != rows[j].role
    ensures DistinctSlugs(entries)
  {
    if rows != [] {
      var n, last := |rows| - 1, rows[|rows| - 1];
      if Kept(db, last) {
        var m := |entries| - 1;
        EntrySlugsDistinct(db, rows[..n], entries[..m]);
        forall e | 0 <= e < m
          ensures entries[e].slug != entries[m].slug
        {
          OtherSlug(db, rows, entries, e);
        }
      } else {
        EntrySlugsDistinct(db, rows[..n], entries);
      }
    }
  }

  /** A snapshot built under the authoring invariant has unique slugs. */
  lemma BuiltSlugsDistinct(db: Db, version: string, snapshot: Catalog)
    requires AuthoringInv(db) && BuiltFrom(db, version, snapshot)
    ensures DistinctSlugs(snapshot.roles)
  {
    var rows: seq<JoinedRow> :| QueryResult(db, rows) && Entries(db, rows, snapshot.roles);
    JoinedRolesDistinct(db, rows);
    EntrySlugsDistinct(db, rows, snapshot.roles);
  }

  /** The published version of an unarchived role, with its seniority and rules, is in the snapshot. */
  lemma PublishedRoleIsListed(db: Db, version: string, snapshot: Catalog, r: RoleId, v: VersionId) returns (e: nat)
    requires AuthoringInv(db) && BuiltFrom(db, version, snapshot)
    requires r in db.roles && !db.roles[r].archived && PublishedFor(db, r, v)
    requires db.versions[v].seniority != "" || !db.roles[r].active
    ensures e < |snapshot.roles|
    ensures snapshot.roles[e].slug == db.roles[r].slug && snapshot.roles[e].active == db.roles[r].active
    ensures snapshot.roles[e].requirements == db.versions[v].rules
  {
    var rows: seq<JoinedRow> :| QueryResult(db, rows) && Entries(db, rows, snapshot.roles);
    var row := JoinedRow(r, Some(v));
    assert Joins(db, row);
    var i :| 0 <= i < |rows| && rows[i] == row;
    RowListed(db, rows, snapshot.roles, i);
    e :| 0 <= e < |snapshot.roles| && EntryOf(db, row, snapshot.roles[e]);
    OnlyPublished(db, row, v, snapshot.roles[e]);
  }

  /**
    A snapshot lists an unarchived role exactly unless it is active and its published
    seniority is the empty string; an archived role is not listed.
  */
  lemma RoleListedIff(db: Db, version: string, snapshot: Catalog, r: RoleId)
    requires AuthoringInv(db) && BuiltFrom(db, version, snapshot) && r in db.roles
    ensures (exists e :: 0 <= e < |snapshot.roles| && snapshot.roles[e].slug == db.roles[r].slug)
            <==> !db.roles[r].archived
                 && !(db.roles[r].active && exists v :: PublishedFor(db, r, v) && db.versions[v].seniority == "")
  {
    var rows: seq<JoinedRow> :| QueryResult(db, rows) && Entries(db, rows, snapshot.roles);
    if e :| 0 <= e < |snapshot.roles| && snapshot.roles[e].slug == db.roles[r].slug {
      EntrySource(db, rows, snapshot.roles, e);
      var i :| 0 <= i < |rows| && Kept(db, rows[i]) && EntryOf(db, rows[i], snapshot.roles[e]);
      assert rows[i].role == r && Joins(db, rows[i]);
      KeptHasSeniority(db, rows[i]);
    }
    if !db.roles[r].archived {
      if HasPublished(db, r) {
        var v :| PublishedFor(db, r, v);
        if db.versions[v].seniority != "" || !db.roles[r].active {
          var e := PublishedRoleIsListed(db, version, snapshot, r, v);
        }
      } else {
        var row := JoinedRow(r, None);
        assert Joins(db, row);
        var i :| 0 <= i < |rows| && rows[i] == row;
        RowListed(db, rows, snapshot.roles, i);
      }
    }
  }

  lemma KeptHasSeniority(db: Db, row: JoinedRow)
    requires AtMostOnePublished(db) && Joins(db, row) && Kept(db, row)
    ensures db.roles[row.role].active ==> !exists v :: PublishedFor(db, row.role, v) && db.versions[v].seniority == ""
  {
  }

  lemma OnlyPublished(db: Db, row: JoinedRow, v: VersionId, entry: JobRole)
    requires AtMostOnePublished(db) && row.role in db.roles && PublishedFor(db, row.role, v) && EntryOf(db, row, entry)
    ensures entry.requirements == db.versions[v].rules
  {
    assert HasPublished(db, row.role);
    var top :| TopPublished(db, row.role, top) && entry.requirements == db.versions[top].rules;
    assert top == v;
  }

  // ----- whole histories -----

  /** Every seed of a role meets its guard and every seeded catalog has unique slugs. */
  ghost predicate SafeHistory(commands: seq<Command>) {
    forall n | 0 <= n < |commands| ::
      && (commands[n].SeedRole? ==> SeedClean(History(Empty, commands[..n]), commands[n].seed))
      && (commands[n].SeedSnapshot? ==> DistinctSlugs(commands[n].catalog.roles))
  }

  lemma StepKeepsDistinct(db: Db, c: Command)
    requires AuthoringInv(db) && SnapshotsDistinct(db)
    requires c.SeedSnapshot? ==> DistinctSlugs(c.catalog.roles)
    ensures SnapshotsDistinct(After(db, c))
  {
    SnapshotsOnlyGrow(db, c);
    if c.Publish? && c.target in db.versions {
      var published := db.(versions := AfterPublish(db.versions, c.target));
      PublishKeepsOne(db, c.target);
      if BuiltFrom(published, c.name, c.snapshot) {
        BuiltSlugsDistinct(published, c.name, c.snapshot);
      }
    }
  }

  /** One safe command keeps all three invariants. */
  lemma SafeStepInv(db: Db, c: Command)
    requires AuthoringInv(db) && SelfNamed(db) && SnapshotsDistinct(db)
    requires c.SeedRole? ==> SeedClean(db, c.seed)
    requires c.SeedSnapshot? ==> DistinctSlugs(c.catalog.roles)
    ensures AuthoringInv(After(db, c)) && SelfNamed(After(db, c)) && SnapshotsDistinct(After(db, c))
  {
    StepSelfNamed(db, c);
    StepKeepsDistinct(db, c);
    if c.SeedRole? {
      if c.newRole !in db.roles && c.newVersion !in db.versions {
        SeedKeepsOnePublishedIff(db, c.newRole, c.newVersion, c.seed);
      }
    } else {
      HandlerKeepsAuthoring(db, c);
    }
  }

  /** Over every safe history from the empty database all three invariants hold. */
  lemma {:induction false} HistoryInv(commands: seq<Command>)
    requires SafeHistory(commands)
    ensures var db := History(Empty, commands);
      AuthoringInv(db) && SelfNamed(db) && SnapshotsDistinct(db)
  {
    if commands != [] {
      var rest, c := commands[..|commands| - 1], commands[|commands| - 1];
      forall n | 0 <= n < |rest|
        ensures commands[..n] == rest[..n] && commands[n] == rest[n]
      {
      }
      HistoryInv(rest);
      SafeStepInv(History(Empty, rest), c);
    }
  }

  /** A job admitted after any safe history reloads its catalog and role after any further commands at all. */
  lemma AdmittedJobFindsItsRole(commands: seq<Command>, later: seq<Command>, v: string, slug: string,
                                seniority: Option<string>)
    requires SafeHistory(commands) && Latest(History(Empty, commands), v)
    requires Admit(History(Empty, commands), v, slug, seniority).Some?
    ensures var db := History(Empty, commands);
      var admitted := Admit(db, v, slug, seniority).value;
      Load(History(db, later), admitted.catalogVersion, slug) == Some((db.snapshots[v].snapshot, admitted.role))
  {
    HistoryInv(commands);
    JobReloadsItsCatalog(History(Empty, commands), later, v, slug, seniority);
  }
}
