/**
  Catalog authoring and publication: roles, rule versions and the snapshots a job is
  admitted under. Every handler is one serial transaction.
*/
module CatalogHistory {
  import opened Wrappers
  import opened CatalogModels

  type RoleId = nat
  type VersionId = nat

  datatype VersionStatus = Draft | Published | Archived

  datatype RoleRow = RoleRow(slug: string, title: string, active: bool, archived: bool)

  datatype VersionRow = VersionRow(
    role: RoleId,
    seniority: string,
    status: VersionStatus,
    version: nat,
    rules: seq<Requirement>)

  datatype SnapshotRow = SnapshotRow(snapshot: Catalog, publishedAt: int)

  datatype Db = Db(
    roles: map<RoleId, RoleRow>,
    versions: map<VersionId, VersionRow>,
    snapshots: map<string, SnapshotRow>,
    recommendations: set<string>)

  // ----- building a snapshot -----

  predicate PublishedFor(db: Db, role: RoleId, v: VersionId) {
    v in db.versions && db.versions[v].role == role && db.versions[v].status == Published
  }

  ghost predicate HasPublished(db: Db, role: RoleId) {
    exists v :: PublishedFor(db, role, v)
  }

  /** A row of the LEFT JOIN of unarchived roles with their published versions. */
  datatype JoinedRow = JoinedRow(role: RoleId, version: Option<VersionId>)

  ghost predicate Joins(db: Db, row: JoinedRow) {
    && row.role in db.roles && !db.roles[row.role].archived
    && if row.version.Some? then PublishedFor(db, row.role, row.version.value) else !HasPublished(db, row.role)
  }

  /** The query result: every joined row once, in some order. */
  ghost predicate QueryResult(db: Db, rows: seq<JoinedRow>) {
    && (forall i | 0 <= i < |rows| :: Joins(db, rows[i]))
    && (forall i, j | 0 <= i < j < |rows| :: rows[i] != rows[j])
    && (forall row | Joins(db, row) :: row in rows)
  }

  function SeniorityOf(db: Db, row: JoinedRow): Option<string> {
    if row.version.Some? && row.version.value in db.versions
    then Some(db.versions[row.version.value].seniority)
    else None
  }

  /** An active role without a (non-empty) published seniority is skipped. */
  predicate Kept(db: Db, row: JoinedRow)
    requires row.role in db.roles
  {
    !(db.roles[row.role].active && SeniorityOf(db, row) in {None, Some("")})
  }

  ghost predicate TopPublished(db: Db, role: RoleId, v: VersionId) {
    PublishedFor(db, role, v) && forall w | PublishedFor(db, role, w) ::
      db.versions[w].version <= db.versions[v].version
  }

  ghost predicate EntryOf(db: Db, row: JoinedRow, entry: JobRole)
    requires row.role in db.roles
  {
    && entry.slug == db.roles[row.role].slug && entry.title == db.roles[row.role].title
    && entry.active == db.roles[row.role].active
    && entry.seniorities == (if SeniorityOf(db, row) == Some("all")
                             then [Some("junior"), Some("mid"), Some("senior"), Some("lead")]
                             else [SeniorityOf(db, row)])
    && (HasPublished(db, row.role) ==>
          exists v :: TopPublished(db, row.role, v) && entry.requirements == db.versions[v].rules)
    && (!HasPublished(db, row.role) ==> entry.requirements == [])
  }

  /** The roles pushed for the query's rows, in order. */
  ghost predicate Entries(db: Db, rows: seq<JoinedRow>, entries: seq<JobRole>)
    requires forall i | 0 <= i < |rows| :: rows[i].role in db.roles
  {
    if rows == [] then entries == []
    else
      var last := rows[|rows| - 1];
      if Kept(db, last) then
        && entries != [] && EntryOf(db, last, entries[|entries| - 1])
        && Entries(db, rows[..|rows| - 1], entries[..|entries| - 1])
      else Entries(db, rows[..|rows| - 1], entries)
  }

  /** `buildCatalogSnapshot`: a snapshot under `version` for the current rows. */
  ghost predicate BuiltFrom(db: Db, version: string, snapshot: Catalog) {
    && snapshot.version == version && snapshot.engineVersion == "1.0.0"
    && KnownIds(snapshot) == db.recommendations
    && exists rows :: QueryResult(db, rows) && Entries(db, rows, snapshot.roles)
  }

  // ----- the handlers -----

  datatype Command =
    | CreateRole(id: RoleId, slug: string, title: string)
    | PatchRole(id: RoleId, newSlug: Option<string>, newTitle: Option<string>, active: Option<bool>)
    | ArchiveRole(id: RoleId)
    | RestoreRole(id: RoleId)
    | CreateDraft(draft: VersionId, role: RoleId, seniority: string)
    | Publish(target: VersionId, name: string, snapshot: Catalog, now: int)
    | Rollback(source: string, name: string, now: int)
    | SeedRole(newRole: RoleId, newVersion: VersionId, seed: JobRole)
    | SeedRecommendations(ids: set<string>)
    | SeedSnapshot(catalog: Catalog, now: int)

  ghost predicate SlugTaken(db: Db, slug: string, except: set<RoleId>) {
    exists r :: r in db.roles && r !in except && db.roles[r].slug == slug
  }

  /** The next version number for a role and seniority. */
  ghost predicate NextVersion(db: Db, role: RoleId, seniority: string, n: nat) {
    && 0 < n
    && (forall v | v in db.versions && db.versions[v].role == role && db.versions[v].seniority == seniority ::
          db.versions[v].version < n)
    && (n == 1 || exists v :: v in db.versions && db.versions[v].role == role && db.versions[v].seniority == seniority
                              && db.versions[v].version == n - 1)
  }

  ghost function NextVersionNumber(db: Db, role: RoleId, seniority: string): nat {
    if n: nat :| NextVersion(db, role, seniority, n) then n else 1
  }

  /** The two UPDATEs of a publication: archive what the role has published, then publish the draft. */
  function AfterPublish(versions: map<VersionId, VersionRow>, target: VersionId): map<VersionId, VersionRow>
    requires target in versions
  {
    map v | v in versions ::
      if v == target then versions[v].(status := Published)
      else if versions[v].role == versions[target].role && versions[v].status == Published
        then versions[v].(status := Archived)
      else versions[v]
  }

  ghost predicate FirstAll(db: Db, role: RoleId, v: VersionId) {
    v in db.versions && db.versions[v].role == role && db.versions[v].seniority == "all" && db.versions[v].version == 1
  }

  ghost predicate PublishedAll(db: Db, role: RoleId) {
    exists v :: PublishedFor(db, role, v) && db.versions[v].seniority == "all"
  }

  /** The version upsert of the seed for one role; the partial unique index may abort it. */
  ghost function SeedVersion(db: Db, role: RoleId, newVersion: VersionId, rules: seq<Requirement>): Option<Db> {
    if v :| FirstAll(db, role, v) then
      Some(if db.versions[v].rules == [] then db.(versions := db.versions[v := db.versions[v].(rules := rules)])
           else db)
    else if PublishedAll(db, role) then None
    else Some(db.(versions := db.versions[newVersion := VersionRow(role, "all", Published, 1, rules)]))
  }

  /** The seed of one role: upsert by slug, then the version. */
  ghost function AfterSeed(db: Db, newRole: RoleId, newVersion: VersionId, seed: JobRole): Option<Db> {
    if r :| r in db.roles && db.roles[r].slug == seed.slug
    then SeedVersion(db.(roles := db.roles[r := db.roles[r].(title := seed.title)]), r, newVersion, seed.requirements)
    else SeedVersion(db.(roles := db.roles[newRole := RoleRow(seed.slug, seed.title, seed.active, false)]),
                     newRole, newVersion, seed.requirements)
  }

  /** The state after a command; a refused or failing transaction changes nothing. */
  ghost function After(db: Db, c: Command): Db {
    match c
    case CreateRole(id, slug, title) =>
      if id in db.roles || SlugTaken(db, slug, {}) then db
      else db.(roles := db.roles[id := RoleRow(slug, title, false, false)])
    case PatchRole(id, newSlug, newTitle, active) =>
      if id !in db.roles then db
      else if active == Some(true) && (db.roles[id].archived || !HasPublished(db, id)) then db
      else if newSlug.Some? && SlugTaken(db, newSlug.value, {id}) then db
      else db.(roles := db.roles[id := Patched(db.roles[id], newSlug, newTitle, active)])
    case ArchiveRole(id) =>
      if id !in db.roles then db
      else db.(roles := db.roles[id := db.roles[id].(active := false, archived := true)])
    case RestoreRole(id) =>
      if id !in db.roles || !db.roles[id].archived then db
      else db.(roles := db.roles[id := db.roles[id].(active := false, archived := false)])
    case CreateDraft(draft, role, seniority) =>
      if draft in db.versions || role !in db.roles then db
      else
        var n := NextVersionNumber(db, role, seniority);
        db.(versions := db.versions[draft := VersionRow(role, seniority, Draft, n, [])])
    case Publish(target, name, snapshot, now) =>
      if target !in db.versions || db.versions[target].status != Draft || name in db.snapshots then db
      else
        var published := db.(versions := AfterPublish(db.versions, target));
        if !BuiltFrom(published, name, snapshot) then db
        else published.(snapshots := db.snapshots[name := SnapshotRow(snapshot, now)])
    case Rollback(source, name, now) =>
      if source !in db.snapshots || name in db.snapshots then db
      else db.(snapshots := db.snapshots[name := SnapshotRow(db.snapshots[source].snapshot, now)])
    case SeedRole(newRole, newVersion, seed) =>
      if newRole in db.roles || newVersion in db.versions then db
      else
        var seeded := AfterSeed(db, newRole, newVersion, seed);
        if seeded.Some? then seeded.value else db
    case SeedRecommendations(ids) => db.(recommendations := db.recommendations + ids)
    case SeedSnapshot(catalog, now) =>
      if catalog.version in db.snapshots then db
      else db.(snapshots := db.snapshots[catalog.version := SnapshotRow(catalog, now)])
  }

  function Patched(r: RoleRow, newSlug: Option<string>, newTitle: Option<string>, active: Option<bool>): RoleRow {
    RoleRow(if newSlug.Some? then newSlug.value else r.slug,
            if newTitle.Some? then newTitle.value else r.title,
            if active.Some? then active.value else r.active,
            r.archived)
  }

  ghost function History(db: Db, commands: seq<Command>): Db {
    if commands == [] then db else After(History(db, commands[..|commands| - 1]), commands[|commands| - 1])
  }

  const Empty: Db := Db(map[], map[], map[], {})

  // ----- the authoring invariant -----

  ghost predicate AtMostOnePublished(db: Db) {
    forall v, w | v in db.versions && w in db.versions && db.versions[v].status == Published
                  && db.versions[w].status == Published && db.versions[v].role == db.versions[w].role :: v == w
  }

  ghost predicate SlugsUnique(db: Db) {
    forall r, q | r in db.roles && q in db.roles && db.roles[r].slug == db.roles[q].slug :: r == q
  }

  ghost predicate RolesInv(db: Db) {
    && SlugsUnique(db)
    && (forall r | r in db.roles && db.roles[r].archived :: !db.roles[r].active)
    && (forall r | r in db.roles && db.roles[r].active :: HasPublished(db, r))
    && (forall v | v in db.versions :: db.versions[v].role in db.roles)
    && VersionKeysUnique(db.versions)
  }

  /** The unique key of a rule version. */
  ghost predicate VersionKeysUnique(versions: map<VersionId, VersionRow>) {
    forall v, w | v in versions && w in versions && versions[v].role == versions[w].role
                  && versions[v].seniority == versions[w].seniority && versions[v].version == versions[w].version ::
                    v == w
  }

  ghost predicate AuthoringInv(db: Db) {
    RolesInv(db) && AtMostOnePublished(db)
  }

  // ----- the snapshot invariant -----

  /** The version inside every snapshot names a row holding the identical snapshot. */
  ghost predicate SelfNamed(db: Db) {
    forall v | v in db.snapshots ::
      var inner := db.snapshots[v].snapshot.version;
      inner in db.snapshots && db.snapshots[inner].snapshot == db.snapshots[v].snapshot
  }

  ghost predicate SnapshotsDistinct(db: Db) {
    forall v | v in db.snapshots :: DistinctSlugs(db.snapshots[v].snapshot.roles)
  }
}
