/**
  The catalog handlers over mutable tables, one method per transaction, each proved to
  take the state to the one `CatalogHistory.After` gives for its command.
*/
module CatalogStore {
  import opened Wrappers
  import opened CatalogModels
  import opened CatalogHistory
  import opened CatalogTheorems

  /** Under the unique keys the role and the version that the seed finds are the only ones there are. */
  lemma SeedSteps(db: Db, newRole: RoleId, newVersion: VersionId, seed: JobRole, found: Option<RoleId>,
                  first: Option<VersionId>)
    requires SlugsUnique(db) && VersionKeysUnique(db.versions)
    requires if found.Some? then found.value in db.roles && db.roles[found.value].slug == seed.slug
             else !SlugTaken(db, seed.slug, {})
    requires var role := if found.Some? then found.value else newRole;
      if first.Some? then FirstAll(db, role, first.value) else forall v: VersionId :: !FirstAll(db, role, v)
    ensures var role := if found.Some? then found.value else newRole;
      var row := if found.Some? then db.roles[role].(title := seed.title)
                 else RoleRow(seed.slug, seed.title, seed.active, false);
      var upserted := db.(roles := db.roles[role := row]);
      AfterSeed(db, newRole, newVersion, seed)
      == if first.None? then
           if PublishedAll(upserted, role) then None
           else Some(upserted.(versions := db.versions[newVersion :=
                VersionRow(role, "all", Published, 1, seed.requirements)]))
         else if db.versions[first.value].rules == [] then
           Some(upserted.(versions :=
                db.versions[first.value := db.versions[first.value].(rules := seed.requirements)]))
         else Some(upserted)
  {
    var role := if found.Some? then found.value else newRole;
    var row := if found.Some? then db.roles[role].(title := seed.title)
               else RoleRow(seed.slug, seed.title, seed.active, false);
    if found.Some? {
      assert role in db.roles && db.roles[role].slug == seed.slug;
      var chosen := SeededRole(db, newRole, newVersion, seed);
      assert chosen == role;
    }
    var upserted := db.(roles := db.roles[role := row]);
    forall v: VersionId
      ensures FirstAll(upserted, role, v) <==> FirstAll(db, role, v)
    {
    }
    SeedVersionIs(upserted, role, newVersion, seed.requirements, first);
  }

  lemma SeedVersionIs(db: Db, role: RoleId, newVersion: VersionId, rules: seq<Requirement>, first: Option<VersionId>)
    requires VersionKeysUnique(db.versions)
    requires if first.Some? then FirstAll(db, role, first.value) else forall v: VersionId :: !FirstAll(db, role, v)
    ensures SeedVersion(db, role, newVersion, rules)
            == if first.None? then
                 if PublishedAll(db, role) then None
                 else Some(db.(versions := db.versions[newVersion := VersionRow(role, "all", Published, 1, rules)]))
               else if db.versions[first.value].rules == [] then
                 Some(db.(versions := db.versions[first.value := db.versions[first.value].(rules := rules)]))
               else Some(db)
  {
  }

  lemma RoleKeepsSlugs(db: Db, role: RoleId, row: RoleRow)
    requires SlugsUnique(db) && !SlugTaken(db, row.slug, {role})
    ensures SlugsUnique(db.(roles := db.roles[role := row]))
  {
  }

  lemma RulesKeepKeys(db: Db, v: VersionId, rules: seq<Requirement>)
    requires VersionKeysUnique(db.versions) && v in db.versions
    ensures VersionKeysUnique(db.versions[v := db.versions[v].(rules := rules)])
  {
  }

  lemma FirstAllKeepsKeys(db: Db, role: RoleId, newVersion: VersionId, rules: seq<Requirement>)
    requires VersionKeysUnique(db.versions) && forall v: VersionId :: !FirstAll(db, role, v)
    ensures VersionKeysUnique(db.versions[newVersion := VersionRow(role, "all", Published, 1, rules)])
  {
    assert forall v | v in db.versions :: !FirstAll(db, role, v);
  }

  class Store {
    var roles: map<RoleId, RoleRow>
    var versions: map<VersionId, VersionRow>
    var snapshots: map<string, SnapshotRow>
    var recommendations: set<string>

    ghost function State(): Db
      reads this
    {
      Db(roles, versions, snapshots, recommendations)
    }

    /** The unique keys of the tables. */
    ghost predicate Valid()
      reads this
    {
      SlugsUnique(State()) && VersionKeysUnique(versions)
    }

    constructor ()
      ensures Valid() && State() == Empty
    {
      recommendations := {};
      roles := map[];
      versions := map[];
      snapshots := map[];
    }

    // ----- queries -----

    method FindSlug(slug: string, except: set<RoleId>) returns (found: Option<RoleId>)
      ensures found.Some? <==> SlugTaken(State(), slug, except)
      ensures found.Some? ==> found.value in roles && found.value !in except && roles[found.value].slug == slug
    {
      var todo := roles.Keys - except;
      while todo != {}
        invariant todo <= roles.Keys - except
        invariant forall r | r in roles && r !in except && r !in todo :: roles[r].slug != slug
      {
        var r :| r in todo;
        if roles[r].slug == slug {
          return Some(r);
        }
        todo := todo - {r};
      }
      found := None;
    }

    method PublishedVersions(role: RoleId) returns (ids: seq<VersionId>)
      ensures forall i | 0 <= i < |ids| :: PublishedFor(State(), role, ids[i])
      ensures forall i, j | 0 <= i < j < |ids| :: ids[i] != ids[j]
      ensures forall v | PublishedFor(State(), role, v) :: v in ids
    {
      ids := [];
      var todo := versions.Keys;
      while todo != {}
        invariant todo <= versions.Keys
        invariant forall i | 0 <= i < |ids| :: PublishedFor(State(), role, ids[i]) && ids[i] !in todo
        invariant forall i, j | 0 <= i < j < |ids| :: ids[i] != ids[j]
        invariant forall v | PublishedFor(State(), role, v) && v !in todo :: v in ids
      {
        var v :| v in todo;
        todo := todo - {v};
        if versions[v].role == role && versions[v].status == Published {
          ids := ids + [v];
        }
      }
    }

    method HasPublishedRules(role: RoleId) returns (yes: bool)
      ensures yes <==> HasPublished(State(), role)
    {
      var ids := PublishedVersions(role);
      yes := ids != [];
      if yes {
        assert PublishedFor(State(), role, ids[0]);
      }
    }

    /** ORDER BY version DESC LIMIT 1. */
    method LatestPublished(role: RoleId) returns (top: Option<VersionId>)
      ensures top.Some? ==> TopPublished(State(), role, top.value)
      ensures top.None? ==> !HasPublished(State(), role)
    {
      var ids := PublishedVersions(role);
      top := None;
      for i := 0 to |ids|
        invariant i == 0 <==> top.None?
        invariant top.Some? ==> PublishedFor(State(), role, top.value)
        invariant top.Some? ==> forall j | 0 <= j < i :: versions[ids[j]].version <= versions[top.value].version
      {
        if top.None? || versions[top.value].version < versions[ids[i]].version {
          top := Some(ids[i]);
        }
      }
    }

    method NextNumber(role: RoleId, seniority: string) returns (n: nat)
      ensures n == NextVersionNumber(State(), role, seniority)
      ensures NextVersion(State(), role, seniority, n)
    {
      var latest := 0;
      var todo := versions.Keys;
      while todo != {}
        invariant todo <= versions.Keys
        invariant forall v | v in versions && v !in todo && versions[v].role == role
                             && versions[v].seniority == seniority :: versions[v].version <= latest
        invariant latest == 0 || exists v ::
          v in versions && versions[v].role == role && versions[v].seniority == seniority
                                             && versions[v].version == latest
      {
        var v :| v in todo;
        todo := todo - {v};
        if versions[v].role == role && versions[v].seniority == seniority && latest < versions[v].version {
          latest := versions[v].version;
        }
      }
      n := latest + 1;
      NextVersionExists(State(), role, seniority);
      NextVersionUnique(State(), role, seniority, n, NextVersionNumber(State(), role, seniority));
    }

    /** The LEFT JOIN of unarchived roles with their published versions; the order of the titles is not modelled. */
    method QueryRoles() returns (rows: seq<JoinedRow>)
      ensures QueryResult(State(), rows)
    {
      rows := [];
      var todo := roles.Keys;
      while todo != {}
        invariant todo <= roles.Keys
        invariant forall i | 0 <= i < |rows| :: Joins(State(), rows[i]) && rows[i].role !in todo
        invariant forall i, j | 0 <= i < j < |rows| :: rows[i] != rows[j]
        invariant forall row | Joins(State(), row) && row.role !in todo :: row in rows
      {
        var r :| r in todo;
        todo := todo - {r};
        if !roles[r].archived {
          var ids := PublishedVersions(r);
          var mine := RowsOf(r, ids);
          assert ids != [] ==> HasPublished(State(), r) by {
            if ids != [] {
              assert PublishedFor(State(), r, ids[0]);
            }
          }
          assert forall row | Joins(State(), row) && row.role == r :: row in mine by {
            forall row | Joins(State(), row) && row.role == r
              ensures row in mine
            {
              if row.version.Some? {
                var k :| 0 <= k < |ids| && ids[k] == row.version.value;
                assert mine[k] == row;
              } else {
                assert mine[0] == row;
              }
            }
          }
          rows := rows + mine;
        }
      }
    }

    function RowsOf(r: RoleId, ids: seq<VersionId>): seq<JoinedRow> {
      if ids == [] then [JoinedRow(r, None)] else seq(|ids|, i requires 0 <= i < |ids| => JoinedRow(r, Some(ids[i])))
    }

    /** The ids of the recommendation templates; every one of them stays active. */
    method RecommendationIds() returns (ids: seq<string>)
      ensures (set i | 0 <= i < |ids| :: ids[i]) == recommendations
    {
      ids := [];
      var todo := recommendations;
      while todo != {}
        invariant todo <= recommendations
        invariant forall id :: id in ids <==> id in recommendations && id !in todo
      {
        var id :| id in todo;
        todo := todo - {id};
        ids := ids + [id];
      }
    }

    method BuildCatalogSnapshot(name: string) returns (snapshot: Catalog)
      ensures BuiltFrom(State(), name, snapshot)
    {
      var rows := QueryRoles();
      var entries: seq<JobRole> := [];
      for i := 0 to |rows|
        invariant Entries(State(), rows[..i], entries)
      {
        assert rows[..i + 1][..i] == rows[..i];
        var row := rows[i];
        assert Joins(State(), row);
        var seniority := if row.version.Some? then Some(versions[row.version.value].seniority) else None;
        if (seniority.None? || seniority.value == "") && roles[row.role].active {
          continue;
        }
        var top := LatestPublished(row.role);
        var entry := JobRole(
          roles[row.role].slug, roles[row.role].title, roles[row.role].active,
          if seniority == Some("all") then [Some("junior"), Some("mid"), Some("senior"), Some("lead")] else [seniority],
          if top.Some? then versions[top.value].rules else []);
        if top.Some? {
          assert HasPublished(State(), row.role);
        }
        assert (entries + [entry])[..|entries|] == entries;
        entries := entries + [entry];
      }
      assert rows[..|rows|] == rows;
      var ids := RecommendationIds();
      snapshot := Catalog(name, "1.0.0", entries, ids);
    }

    /** `loadCatalogForJob`: the snapshot row of the version, and its first role with the slug. */
    method LoadCatalog(version: string, slug: string) returns (loaded: Option<(Catalog, JobRole)>)
      ensures loaded == Load(State(), version, slug)
    {
      if version !in snapshots {
        return None;
      }
      var catalog := snapshots[version].snapshot;
      for i := 0 to |catalog.roles|
        invariant FindRole(catalog.roles, slug) == FindRole(catalog.roles[i..], slug)
      {
        if catalog.roles[i].slug == slug {
          return Some((catalog, catalog.roles[i]));
        }
      }
      loaded := None;
    }

    /** ORDER BY published_at DESC LIMIT 1; of several rows with the same time any may come first. */
    method LatestSnapshot() returns (latest: Option<string>)
      ensures latest.Some? ==> Latest(State(), latest.value)
      ensures latest.None? ==> snapshots == map[]
    {
      latest := None;
      var todo := snapshots.Keys;
      while todo != {}
        invariant todo <= snapshots.Keys
        invariant latest.None? ==> todo == snapshots.Keys
        invariant latest.Some? ==> latest.value in snapshots
        invariant latest.Some? ==> forall w | w in snapshots && w !in todo ::
          snapshots[w].publishedAt <= snapshots[latest.value].publishedAt
      {
        var v :| v in todo;
        todo := todo - {v};
        if latest.None? || snapshots[latest.value].publishedAt < snapshots[v].publishedAt {
          latest := Some(v);
        }
      }
    }

    /** The catalog half of the upload route: what it records, or nothing when it refuses. */
    method AdmitUpload(slug: string, seniority: Option<string>) returns (admitted: Option<Admission>)
      ensures snapshots == map[] ==> admitted.None?
      ensures snapshots != map[] ==> exists v :: Latest(State(), v) && admitted == Admit(State(), v, slug, seniority)
    {
      var latest := LatestSnapshot();
      if latest.None? {
        return None;
      }
      var catalog := snapshots[latest.value].snapshot;
      var i := 0;
      while i < |catalog.roles| && !(catalog.roles[i].slug == slug && catalog.roles[i].active)
        invariant 0 <= i <= |catalog.roles|
        invariant FindActiveRole(catalog.roles, slug) == FindActiveRole(catalog.roles[i..], slug)
      {
        i := i + 1;
      }
      assert latest.Some? && Latest(State(), latest.value);
      if catalog.version == "" || i == |catalog.roles| {
        return None;
      }
      var offered := catalog.roles[i].seniorities;
      if seniority.Some? && seniority.value != "" && seniority.value != "all" && offered != []
        && seniority !in offered {
        return None;
      }
      admitted := Some(Admission(catalog.version, catalog.roles[i]));
    }

    // ----- handlers -----

    method HandleCreateRole(id: RoleId, slug: string, title: string) returns (created: bool)
      requires Valid() && id !in roles
      modifies this
      ensures Valid()
      ensures State() == After(old(State()), CreateRole(id, slug, title))
      ensures created <==> !old(SlugTaken(State(), slug, {}))
    {
      var clash := FindSlug(slug, {});
      created := clash.None?;
      if created {
        roles := roles[id := RoleRow(slug, title, false, false)];
      }
    }

    method HandlePatchRole(id: RoleId, newSlug: Option<string>, newTitle: Option<string>, active: Option<bool>)
      requires Valid()
      modifies this
      ensures Valid()
      ensures State() == After(old(State()), PatchRole(id, newSlug, newTitle, active))
    {
      if id !in roles {
        return;
      }
      var ready := HasPublishedRules(id);
      if active == Some(true) && roles[id].archived {
        return;
      }
      if active == Some(true) && !ready {
        return;
      }
      if newSlug.Some? {
        var clash := FindSlug(newSlug.value, {id});
        if clash.Some? {
          return;
        }
      }
      var row := roles[id];
      if newSlug.Some? {
        row := row.(slug := newSlug.value);
      }
      if newTitle.Some? {
        row := row.(title := newTitle.value);
      }
      if active.Some? {
        row := row.(active := active.value);
      }
      roles := roles[id := row];
    }

    method HandleArchiveRole(id: RoleId) returns (found: bool)
      requires Valid()
      modifies this
      ensures Valid() && found == (id in old(roles))
      ensures State() == After(old(State()), ArchiveRole(id))
    {
      found := id in roles;
      if found {
        roles := roles[id := roles[id].(active := false, archived := true)];
      }
    }

    method HandleRestoreRole(id: RoleId) returns (found: bool)
      requires Valid()
      modifies this
      ensures Valid() && found == (id in old(roles) && old(roles)[id].archived)
      ensures State() == After(old(State()), RestoreRole(id))
    {
      found := id in roles && roles[id].archived;
      if found {
        roles := roles[id := roles[id].(active := false, archived := false)];
      }
    }

    method HandleCreateDraft(draft: VersionId, role: RoleId, seniority: string)
      requires Valid() && draft !in versions
      modifies this
      ensures Valid()
      ensures State() == After(old(State()), CreateDraft(draft, role, seniority))
    {
      if role !in roles {
        return;
      }
      var n := NextNumber(role, seniority);
      versions := versions[draft := VersionRow(role, seniority, Draft, n, [])];
    }

    /** The two UPDATEs, the snapshot and its INSERT; a duplicate version name rolls all of it back. */
    method HandlePublish(target: VersionId, name: string, now: int) returns (published: bool, ghost snapshot: Catalog)
      requires Valid()
      modifies this
      ensures Valid()
      ensures State() == After(old(State()), Publish(target, name, snapshot, now))
      ensures published <==> target in old(versions) && old(versions)[target].status == Draft && name !in old(snapshots)
      ensures published ==> BuiltFrom(old(State()).(versions := versions), name, snapshot)
      ensures published ==> name in snapshots && snapshots[name].snapshot == snapshot
    {
      published, snapshot := false, Catalog(name, "", [], []);
      if target !in versions || versions[target].status != Draft {
        return;
      }
      var saved := versions;
      var role := versions[target].role;
      versions := map v | v in versions ::
        if versions[v].role == role && versions[v].status == Published then versions[v].(status := Archived)
        else versions[v];
      versions := versions[target := versions[target].(status := Published)];
      assert versions == AfterPublish(saved, target);
      var built := BuildCatalogSnapshot(name);
      if name in snapshots {
        versions := saved;
        return;
      }
      assert BuiltFrom(old(State()).(versions := versions), name, built);
      snapshots := snapshots[name := SnapshotRow(built, now)];
      published, snapshot := true, built;
    }

    method HandleRollback(source: string, name: string, now: int) returns (done: bool)
      requires Valid()
      modifies this
      ensures Valid() && done == (source in old(snapshots) && name !in old(snapshots))
      ensures State() == After(old(State()), Rollback(source, name, now))
    {
      done := source in snapshots && name !in snapshots;
      if done {
        snapshots := snapshots[name := SnapshotRow(snapshots[source].snapshot, now)];
      }
    }

    /** The version with the unique key of the seed: the first of all seniorities. */
    method FindFirstAll(role: RoleId) returns (found: Option<VersionId>)
      ensures found.Some? ==> FirstAll(State(), role, found.value)
      ensures found.None? ==> forall v: VersionId :: !FirstAll(State(), role, v)
    {
      var todo := versions.Keys;
      while todo != {}
        invariant todo <= versions.Keys
        invariant forall v | v !in todo :: !FirstAll(State(), role, v)
      {
        var v :| v in todo;
        todo := todo - {v};
        if versions[v].role == role && versions[v].seniority == "all" && versions[v].version == 1 {
          return Some(v);
        }
      }
      found := None;
    }

    /** Whether the partial unique index holds a published version of the role for all seniorities. */
    method HasPublishedAll(role: RoleId) returns (yes: bool)
      ensures yes <==> PublishedAll(State(), role)
    {
      var ids := PublishedVersions(role);
      yes := false;
      for i := 0 to |ids|
        invariant yes <==> exists j :: 0 <= j < i && versions[ids[j]].seniority == "all"
      {
        yes := yes || versions[ids[i]].seniority == "all";
      }
      if yes {
        var j :| 0 <= j < |ids| && versions[ids[j]].seniority == "all";
        assert PublishedFor(State(), role, ids[j]);
      }
    }

    /** The two upserts of the seed for one role; an abort by the partial unique index leaves everything as it was. */
    method HandleSeedRole(newRole: RoleId, newVersion: VersionId, seed: JobRole) returns (done: bool)
      requires Valid() && newRole !in roles && newVersion !in versions
      modifies this
      ensures Valid()
      ensures State() == After(old(State()), SeedRole(newRole, newVersion, seed))
      ensures !done ==> State() == old(State())
    {
      var saved := roles;
      var found := FindSlug(seed.slug, {});
      var role := if found.Some? then found.value else newRole;
      var first := FindFirstAll(role);
      SeedSteps(State(), newRole, newVersion, seed, found, first);
      var row := RoleRow(seed.slug, seed.title, seed.active, false);
      if found.Some? {
        row := roles[role].(title := seed.title);
      }
      RoleKeepsSlugs(State(), role, row);
      roles := roles[role := row];
      var clash := HasPublishedAll(role);
      done := first.Some? || !clash;
      if !done {
        roles := saved;
        return;
      }
      if first.None? {
        FirstAllKeepsKeys(old(State()), role, newVersion, seed.requirements);
        versions := versions[newVersion := VersionRow(role, "all", Published, 1, seed.requirements)];
      } else if versions[first.value].rules == [] {
        RulesKeepKeys(State(), first.value, seed.requirements);
        versions := versions[first.value := versions[first.value].(rules := seed.requirements)];
      }
    }

    method SeedTemplates(ids: set<string>)
      requires Valid()
      modifies this
      ensures Valid()
      ensures State() == After(old(State()), SeedRecommendations(ids))
    {
      recommendations := recommendations + ids;
    }

    method SeedCatalog(catalog: Catalog, now: int)
      requires Valid()
      modifies this
      ensures Valid()
      ensures State() == After(old(State()), SeedSnapshot(catalog, now))
    {
      if catalog.version !in snapshots {
        snapshots := snapshots[catalog.version := SnapshotRow(catalog, now)];
      }
    }
  }
}
