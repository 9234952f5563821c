/**
  Which published catalogs the engine can use at all: it has to decode the snapshot, and
  its validator has to accept it. For a snapshot built by a publication both are decided
  by the published rule versions.
*/
module CatalogUse {
  import opened Wrappers
  import opened CatalogModels
  import opened CatalogValidation
  import opened CatalogHistory
  import opened CatalogTheorems

  /** An analysis under the catalog can complete. */
  ghost predicate Usable(catalog: Catalog) {
    Decodable(catalog) && Accepted(catalog)
  }

  /** The role is active and published for the empty seniority, so the snapshot leaves it out. */
  predicate LeftOut(db: Db, r: RoleId, v: VersionId)
    requires r in db.roles && v in db.versions
  {
    db.roles[r].active && db.versions[v].seniority == ""
  }

  ghost predicate RulesUsable(rules: seq<Requirement>, active: bool, known: set<string>) {
    && DistinctIds(rules)
    && ValidRules(rules, known)
    && (active ==> rules != [])
  }

  /** Every published version of an unarchived role that the snapshot lists has usable rules. */
  ghost predicate AcceptableRole(db: Db, r: RoleId)
    requires r in db.roles
  {
    forall v | PublishedFor(db, r, v) && !LeftOut(db, r, v) ::
      RulesUsable(db.versions[v].rules, db.roles[r].active, db.recommendations)
  }

  /** The role has a published version, for a level of the engine's enumeration or for all of them. */
  ghost predicate DecodablePublication(db: Db, r: RoleId)
    requires r in db.roles
  {
    exists v :: PublishedFor(db, r, v) && (LeftOut(db, r, v)
                                           || db.versions[v].seniority in {"junior", "mid", "senior", "lead", "all"})
  }

  // ----- one row of the query -----

  lemma PublishedVersionIs(db: Db, row: JoinedRow)
    requires AtMostOnePublished(db) && Joins(db, row)
    ensures forall v: VersionId :: PublishedFor(db, row.role, v) <==> row.version == Some(v)
  {
    forall v: VersionId
      ensures PublishedFor(db, row.role, v) <==> row.version == Some(v)
    {
      if PublishedFor(db, row.role, v) {
        SameRoleSameRow(db, row, JoinedRow(row.role, Some(v)));
      }
    }
  }

  lemma RowDecodableIff(db: Db, row: JoinedRow, entry: JobRole)
    requires AtMostOnePublished(db) && Joins(db, row) && Kept(db, row) && EntryOf(db, row, entry)
    ensures DecodableRole(entry) <==> DecodablePublication(db, row.role)
  {
    PublishedVersionIs(db, row);
    if row.version.Some? {
      assert PublishedFor(db, row.role, row.version.value);
      SenioritiesDecodableIff(db.versions[row.version.value].seniority, entry.seniorities, entry);
    } else {
      assert entry.seniorities == [None] && entry.seniorities[0].None?;
    }
  }

  lemma SenioritiesDecodableIff(seniority: string, seniorities: seq<Option<string>>, entry: JobRole)
    requires entry.seniorities == seniorities
    requires seniorities == if seniority == "all" then [Some("junior"), Some("mid"), Some("senior"), Some("lead")]
                            else [Some(seniority)]
    ensures DecodableRole(entry) <==> seniority in {"junior", "mid", "senior", "lead", "all"}
  {
    if seniority != "all" {
      assert seniorities[0] == Some(seniority);
    }
  }

  lemma RowAcceptableIff(db: Db, row: JoinedRow, entry: JobRole)
    requires AtMostOnePublished(db) && Joins(db, row) && Kept(db, row) && EntryOf(db, row, entry)
    ensures ValidRole(entry, db.recommendations) <==> AcceptableRole(db, row.role)
  {
    PublishedVersionIs(db, row);
    if row.version.Some? {
      OnlyPublished(db, row, row.version.value, entry);
    }
  }

  /** A row the snapshot skips is an active role published for the empty seniority. */
  lemma SkippedRow(db: Db, row: JoinedRow)
    requires AuthoringInv(db) && Joins(db, row) && !Kept(db, row)
    ensures AcceptableRole(db, row.role) && DecodablePublication(db, row.role)
  {
    PublishedVersionIs(db, row);
    var v :| PublishedFor(db, row.role, v);
    assert LeftOut(db, row.role, v);
  }

  lemma RowOfRole(db: Db, rows: seq<JoinedRow>, r: RoleId) returns (i: nat)
    requires QueryResult(db, rows) && r in db.roles && !db.roles[r].archived
    ensures i < |rows| && rows[i].role == r
  {
    var row := JoinedRow(r, None);
    if v :| PublishedFor(db, r, v) {
      row := JoinedRow(r, Some(v));
    }
    assert Joins(db, row);
    i :| 0 <= i < |rows| && rows[i] == row;
  }

  // ----- the whole snapshot -----

  /** The validator accepts a built snapshot exactly when the published rules of every listed role are usable. */
  lemma BuiltAcceptedIff(db: Db, name: string, snapshot: Catalog)
    requires AuthoringInv(db) && BuiltFrom(db, name, snapshot)
    ensures Accepted(snapshot) <==> forall r | r in db.roles && !db.roles[r].archived :: AcceptableRole(db, r)
  {
    BuiltSlugsDistinct(db, name, snapshot);
    var rows: seq<JoinedRow> :| QueryResult(db, rows) && Entries(db, rows, snapshot.roles);
    if Accepted(snapshot) {
      forall r | r in db.roles && !db.roles[r].archived
        ensures AcceptableRole(db, r)
      {
        AcceptedRoleRules(db, rows, snapshot, r);
      }
    }
    if forall r | r in db.roles && !db.roles[r].archived :: AcceptableRole(db, r) {
      forall e | 0 <= e < |snapshot.roles|
        ensures ValidRole(snapshot.roles[e], KnownIds(snapshot))
      {
        var i := SourceRow(db, rows, snapshot.roles, e);
        RowAcceptableIff(db, rows[i], snapshot.roles[e]);
      }
    }
  }

  lemma SourceRow(db: Db, rows: seq<JoinedRow>, entries: seq<JobRole>, e: nat) returns (i: nat)
    requires QueryResult(db, rows) && Entries(db, rows, entries) && e < |entries|
    ensures i < |rows| && Joins(db, rows[i]) && Kept(db, rows[i]) && EntryOf(db, rows[i], entries[e])
  {
    EntrySource(db, rows, entries, e);
    i :| 0 <= i < |rows| && Kept(db, rows[i]) && EntryOf(db, rows[i], entries[e]);
  }

  lemma AcceptedRoleRules(db: Db, rows: seq<JoinedRow>, snapshot: Catalog, r: RoleId)
    requires AuthoringInv(db) && QueryResult(db, rows) && Entries(db, rows, snapshot.roles)
    requires KnownIds(snapshot) == db.recommendations && Accepted(snapshot) && r in db.roles && !db.roles[r].archived
    ensures AcceptableRole(db, r)
  {
    var i := RowOfRole(db, rows, r);
    if Kept(db, rows[i]) {
      RowListed(db, rows, snapshot.roles, i);
      var e :| 0 <= e < |snapshot.roles| && EntryOf(db, rows[i], snapshot.roles[e]);
      RowAcceptableIff(db, rows[i], snapshot.roles[e]);
    } else {
      SkippedRow(db, rows[i]);
    }
  }

  /**
    The engine can decode a built snapshot exactly when every unarchived role is published,
    and for a level it knows: a role that was never published is listed without one.
  */
  lemma BuiltDecodableIff(db: Db, name: string, snapshot: Catalog)
    requires AuthoringInv(db) && BuiltFrom(db, name, snapshot)
    ensures Decodable(snapshot) <==> forall r | r in db.roles && !db.roles[r].archived :: DecodablePublication(db, r)
  {
    var rows: seq<JoinedRow> :| QueryResult(db, rows) && Entries(db, rows, snapshot.roles);
    if Decodable(snapshot) {
      forall r | r in db.roles && !db.roles[r].archived
        ensures DecodablePublication(db, r)
      {
        DecodableRoleLevel(db, rows, snapshot, r);
      }
    }
    if forall r | r in db.roles && !db.roles[r].archived :: DecodablePublication(db, r) {
      forall e | 0 <= e < |snapshot.roles|
        ensures DecodableRole(snapshot.roles[e])
      {
        var i := SourceRow(db, rows, snapshot.roles, e);
        RowDecodableIff(db, rows[i], snapshot.roles[e]);
      }
    }
  }

  lemma DecodableRoleLevel(db: Db, rows: seq<JoinedRow>, snapshot: Catalog, r: RoleId)
    requires AuthoringInv(db) && QueryResult(db, rows) && Entries(db, rows, snapshot.roles)
    requires Decodable(snapshot) && r in db.roles && !db.roles[r].archived
    ensures DecodablePublication(db, r)
  {
    var i := RowOfRole(db, rows, r);
    if Kept(db, rows[i]) {
      RowListed(db, rows, snapshot.roles, i);
      var e :| 0 <= e < |snapshot.roles| && EntryOf(db, rows[i], snapshot.roles[e]);
      RowDecodableIff(db, rows[i], snapshot.roles[e]);
    } else {
      SkippedRow(db, rows[i]);
    }
  }

  /**
    Whether a publication leaves a usable catalog, said of the tables before it: the draft
    has a known seniority and usable rules, unless its role is archived or left out, and so
    has every other unarchived role's published version.
  */
  lemma PublicationUsableIff(db: Db, target: VersionId, name: string, snapshot: Catalog)
    requires AuthoringInv(db) && target in db.versions
    requires BuiltFrom(db.(versions := AfterPublish(db.versions, target)), name, snapshot)
    ensures Usable(snapshot) <==>
      var role := db.versions[target].role;
      && (db.roles[role].archived || LeftOut(db, role, target)
          || (&& db.versions[target].seniority in {"junior", "mid", "senior", "lead", "all"}
              && RulesUsable(db.versions[target].rules, db.roles[role].active, db.recommendations)))
      && forall r | r in db.roles && !db.roles[r].archived && r != role ::
           DecodablePublication(db, r) && AcceptableRole(db, r)
  {
    var after := db.(versions := AfterPublish(db.versions, target));
    PublishKeepsOne(db, target);
    BuiltAcceptedIff(after, name, snapshot);
    BuiltDecodableIff(after, name, snapshot);
    TargetAfterPublish(db, target);
    forall r | r in db.roles && r != db.versions[target].role
      ensures DecodablePublication(after, r) <==> DecodablePublication(db, r)
      ensures AcceptableRole(after, r) <==> AcceptableRole(db, r)
    {
      OthersAfterPublish(db, target, r);
    }
  }

  lemma SolePublication(db: Db, r: RoleId, v: VersionId)
    requires r in db.roles && v in db.versions && forall w: VersionId :: PublishedFor(db, r, w) <==> w == v
    ensures DecodablePublication(db, r) <==>
      LeftOut(db, r, v) || db.versions[v].seniority in {"junior", "mid", "senior", "lead", "all"}
    ensures AcceptableRole(db, r) <==>
      LeftOut(db, r, v) || RulesUsable(db.versions[v].rules, db.roles[r].active, db.recommendations)
  {
    assert PublishedFor(db, r, v);
  }

  lemma TargetAfterPublish(db: Db, target: VersionId)
    requires AuthoringInv(db) && target in db.versions
    ensures var after, role := db.(versions := AfterPublish(db.versions, target)), db.versions[target].role;
      DecodablePublication(after, role) && AcceptableRole(after, role) <==>
        || LeftOut(db, role, target)
        || (&& db.versions[target].seniority in {"junior", "mid", "senior", "lead", "all"}
            && RulesUsable(db.versions[target].rules, db.roles[role].active, db.recommendations))
  {
    var after, role := db.(versions := AfterPublish(db.versions, target)), db.versions[target].role;
    forall v: VersionId
      ensures PublishedFor(after, role, v) <==> v == target
    {
      if v in db.versions {
        PublishedRow(db.versions, target, v);
      }
    }
    PublishedRow(db.versions, target, target);
    SolePublication(after, role, target);
  }

  lemma OthersAfterPublish(db: Db, target: VersionId, r: RoleId)
    requires target in db.versions && r in db.roles && r != db.versions[target].role
    ensures var after := db.(versions := AfterPublish(db.versions, target));
      && (DecodablePublication(after, r) <==> DecodablePublication(db, r))
      && (AcceptableRole(after, r) <==> AcceptableRole(db, r))
  {
    var after := db.(versions := AfterPublish(db.versions, target));
    forall v: VersionId
      ensures PublishedFor(after, r, v) <==> PublishedFor(db, r, v)
      ensures v in db.versions ==> after.versions[v] == db.versions[v].(status := after.versions[v].status)
    {
      if v in db.versions {
        PublishedRow(db.versions, target, v);
      }
    }
    if DecodablePublication(db, r) {
      var v :| PublishedFor(db, r, v) && (LeftOut(db, r, v)
                                          || db.versions[v].seniority in {"junior", "mid", "senior", "lead", "all"});
      assert PublishedFor(after, r, v);
    }
    if DecodablePublication(after, r) {
      var v :| PublishedFor(after, r, v)
        && (LeftOut(after, r, v) || after.versions[v].seniority in {"junior", "mid", "senior", "lead", "all"});
      assert PublishedFor(db, r, v);
    }
  }

  // ----- the drafts of the authoring API -----

  ghost predicate DraftsRuleless(db: Db) {
    forall v | v in db.versions && db.versions[v].status == Draft :: db.versions[v].rules == []
  }

  lemma {:induction false} ApiDraftsRuleless(db: Db, commands: seq<Command>)
    requires AuthoringInv(db) && DraftsRuleless(db) && forall c | c in commands :: !c.SeedRole?
    ensures AuthoringInv(History(db, commands)) && DraftsRuleless(History(db, commands))
  {
    if commands != [] {
      var n, last := |commands| - 1, commands[|commands| - 1];
      assert forall c | c in commands[..n] :: c in commands;
      ApiDraftsRuleless(db, commands[..n]);
      HandlerKeepsAuthoring(History(db, commands[..n]), last);
      ApiStepRuleless(History(db, commands[..n]), last);
    }
  }

  lemma ApiStepRuleless(db: Db, c: Command)
    requires DraftsRuleless(db) && !c.SeedRole?
    ensures DraftsRuleless(After(db, c))
  {
    if c.Publish? && c.target in db.versions {
      forall v | v in db.versions && AfterPublish(db.versions, c.target)[v].status == Draft
        ensures AfterPublish(db.versions, c.target)[v] == db.versions[v]
      {
      }
    }
  }

  /**
    The API creates drafts without rules and has no call that adds one. So once the
    catalog is seeded, no sequence of API calls leads to a publication for an active role
    under which an analysis can complete, unless the draft is for the empty seniority,
    which leaves the role out of the catalog.
  */
  lemma ApiPublicationUnusable(seeded: Db, commands: seq<Command>, target: VersionId, name: string, snapshot: Catalog,
                               now: int)
    requires AuthoringInv(seeded) && DraftsRuleless(seeded) && forall c | c in commands :: !c.SeedRole?
    requires var db := History(seeded, commands);
      && target in db.versions && db.versions[target].status == Draft && name !in db.snapshots
      && db.versions[target].role in db.roles && db.roles[db.versions[target].role].active
      && BuiltFrom(db.(versions := AfterPublish(db.versions, target)), name, snapshot)
    ensures var after := After(History(seeded, commands), Publish(target, name, snapshot, now));
      name in after.snapshots && after.snapshots[name].snapshot == snapshot
    ensures Usable(snapshot) ==> History(seeded, commands).versions[target].seniority == ""
  {
    ApiDraftsRuleless(seeded, commands);
    RulelessPublicationUnusable(History(seeded, commands), target, name, snapshot);
  }

  lemma RulelessPublicationUnusable(db: Db, target: VersionId, name: string, snapshot: Catalog)
    requires AuthoringInv(db) && target in db.versions && db.versions[target].rules == []
    requires db.roles[db.versions[target].role].active
    requires BuiltFrom(db.(versions := AfterPublish(db.versions, target)), name, snapshot)
    ensures Usable(snapshot) ==> db.versions[target].seniority == ""
  {
    if db.versions[target].seniority != "" {
      PublicationAccepted(db, target, name, snapshot);
    }
  }

  /** The same for one publication of a draft without rules: the validator rejects its snapshot. */
  lemma PublishingRulelessDraftIsRejected(db: Db, target: VersionId, name: string, snapshot: Catalog, now: int)
    requires AuthoringInv(db) && name !in db.snapshots
    requires target in db.versions && db.versions[target].status == Draft && db.versions[target].rules == []
    requires db.versions[target].seniority != ""
    requires db.roles[db.versions[target].role].active
    requires BuiltFrom(db.(versions := AfterPublish(db.versions, target)), name, snapshot)
    ensures var after := After(db, Publish(target, name, snapshot, now));
      name in after.snapshots && after.snapshots[name].snapshot == snapshot && !Accepted(snapshot)
  {
    PublicationAccepted(db, target, name, snapshot);
  }

  /** An accepted publication has usable rules for its own role. */
  lemma PublicationAccepted(db: Db, target: VersionId, name: string, snapshot: Catalog)
    requires AuthoringInv(db) && target in db.versions
    requires BuiltFrom(db.(versions := AfterPublish(db.versions, target)), name, snapshot)
    requires !db.roles[db.versions[target].role].archived && !LeftOut(db, db.versions[target].role, target)
    ensures Accepted(snapshot) ==>
      RulesUsable(db.versions[target].rules, db.roles[db.versions[target].role].active, db.recommendations)
  {
    var r, after := db.versions[target].role, db.(versions := AfterPublish(db.versions, target));
    PublishKeepsOne(db, target);
    BuiltAcceptedIff(after, name, snapshot);
    PublishedRow(db.versions, target, target);
    assert PublishedFor(after, r, target) && !LeftOut(after, r, target);
  }
}
