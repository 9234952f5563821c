/**
  Short histories that end with a published catalog no analysis can use: one for each of
  the two ways a snapshot fails.
*/
module CatalogWitness {
  import opened Wrappers
  import opened CatalogModels
  import opened CatalogValidation
  import opened CatalogHistory
  import opened CatalogTheorems
  import opened CatalogUse

  const AllLevels: seq<Option<string>> := [Some("junior"), Some("mid"), Some("senior"), Some("lead")]

  lemma HistorySnoc(db: Db, commands: seq<Command>, c: Command)
    ensures History(db, commands + [c]) == After(History(db, commands), c)
  {
    assert (commands + [c])[..|commands|] == commands;
  }

  lemma NextIs(db: Db, role: RoleId, seniority: string, n: nat)
    requires NextVersion(db, role, seniority, n)
    ensures NextVersionNumber(db, role, seniority) == n
  {
    NextVersionExists(db, role, seniority);
    NextVersionUnique(db, role, seniority, n, NextVersionNumber(db, role, seniority));
  }

  // ----- the validator rejects: a draft without rules for an active role -----

  /** The state after the seed of one active role and a draft made over the API. */
  function SeededWithDraft(seed: JobRole): Db {
    Db(map[0 := RoleRow(seed.slug, seed.title, true, false)],
       map[0 := VersionRow(0, "all", Published, 1, seed.requirements), 1 := VersionRow(0, "all", Draft, 2, [])],
       map[], {})
  }

  lemma SeedThenDraft(seed: JobRole)
    requires seed.active
    ensures History(Empty, [SeedRole(0, 0, seed), CreateDraft(1, 0, "all")]) == SeededWithDraft(seed)
  {
    var one := SeededWithDraft(seed).(versions := map[0 := VersionRow(0, "all", Published, 1, seed.requirements)]);
    assert After(Empty, SeedRole(0, 0, seed)) == one by {
      SeedOne(seed);
    }
    assert NextVersion(one, 0, "all", 2) by {
      assert one.versions[0].version == 1;
    }
    NextIs(one, 0, "all", 2);
    assert After(one, CreateDraft(1, 0, "all")) == SeededWithDraft(seed);
    assert [SeedRole(0, 0, seed), CreateDraft(1, 0, "all")] == [] + [SeedRole(0, 0, seed)] + [CreateDraft(1, 0, "all")];
    HistorySnoc(Empty, [], SeedRole(0, 0, seed));
    HistorySnoc(Empty, [] + [SeedRole(0, 0, seed)], CreateDraft(1, 0, "all"));
  }

  lemma SeedOne(seed: JobRole)
    requires seed.active
    ensures After(Empty, SeedRole(0, 0, seed))
            == Db(map[0 := RoleRow(seed.slug, seed.title, true, false)],
                  map[0 := VersionRow(0, "all", Published, 1, seed.requirements)], map[], {})
  {
    var withRole := Empty.(roles := map[0 := RoleRow(seed.slug, seed.title, true, false)]);
    assert Empty.roles[0 := RoleRow(seed.slug, seed.title, true, false)] == withRole.roles;
    assert AfterSeed(Empty, 0, 0, seed) == SeedVersion(withRole, 0, 0, seed.requirements);
    assert !exists v :: FirstAll(withRole, 0, v);
    assert !PublishedAll(withRole, 0);
    assert withRole.versions[0 := VersionRow(0, "all", Published, 1, seed.requirements)]
        == map[0 := VersionRow(0, "all", Published, 1, seed.requirements)];
  }

  function DraftSnapshot(seed: JobRole): Catalog {
    Catalog("c", "1.0.0", [JobRole(seed.slug, seed.title, true, AllLevels, [])], [])
  }

  lemma DraftSnapshotBuilt(seed: JobRole)
    ensures BuiltFrom(SeededWithDraft(seed).(versions := AfterPublish(SeededWithDraft(seed).versions, 1)), "c",
                      DraftSnapshot(seed))
  {
    var db := SeededWithDraft(seed).(versions := AfterPublish(SeededWithDraft(seed).versions, 1));
    var rows, roles := [JoinedRow(0, Some(1))], DraftSnapshot(seed).roles;
    assert PublishedFor(db, 0, 1);
    assert QueryResult(db, rows) by {
      forall row | Joins(db, row)
        ensures row == rows[0]
      {
      }
    }
    assert TopPublished(db, 0, 1);
    assert EntryOf(db, rows[0], roles[0]);
    assert rows[..0] == [] && roles[..0] == [];
    assert Entries(db, [], []);
    assert Entries(db, rows, roles);
  }

  /**
    Seed one active role, draft a new version of it over the API, publish the draft: the
    stored catalog can be decoded, but the validator rejects it.
  */
  lemma RulelessDraftWitness(seed: JobRole)
    requires seed.active
    ensures var before := [SeedRole(0, 0, seed), CreateDraft(1, 0, "all")];
      var after := History(Empty, before + [Publish(1, "c", DraftSnapshot(seed), 0)]);
      && AuthoringInv(History(Empty, before)) && DraftsRuleless(History(Empty, before))
      && "c" in after.snapshots && after.snapshots["c"].snapshot == DraftSnapshot(seed)
      && Decodable(DraftSnapshot(seed)) && !Accepted(DraftSnapshot(seed))
  {
    SeedThenDraft(seed);
    DraftSnapshotBuilt(seed);
    SeededWithDraftInv(seed);
    HistorySnoc(Empty, [SeedRole(0, 0, seed), CreateDraft(1, 0, "all")], Publish(1, "c", DraftSnapshot(seed), 0));
    PublishingRulelessDraftIsRejected(SeededWithDraft(seed), 1, "c", DraftSnapshot(seed), 0);
  }

  lemma SeededWithDraftInv(seed: JobRole)
    ensures AuthoringInv(SeededWithDraft(seed)) && DraftsRuleless(SeededWithDraft(seed))
  {
    assert PublishedFor(SeededWithDraft(seed), 0, 0);
  }

  // ----- the engine cannot decode: a role that was never published -----

  /** The state after two new roles and a draft of the first. */
  const TwoRoles: Db := Db(
    map[0 := RoleRow("dev", "Dev", false, false), 1 := RoleRow("ops", "Ops", false, false)],
    map[0 := VersionRow(0, "all", Draft, 1, [])], map[], {})

  lemma CreateTwo()
    ensures History(Empty, [CreateRole(0, "dev", "Dev"), CreateRole(1, "ops", "Ops"), CreateDraft(0, 0, "all")])
      == TwoRoles
  {
    var a, b, c := CreateRole(0, "dev", "Dev"), CreateRole(1, "ops", "Ops"), CreateDraft(0, 0, "all");
    var one := Empty.(roles := map[0 := RoleRow("dev", "Dev", false, false)]);
    var two := TwoRoles.(versions := map[]);
    assert After(Empty, a) == one;
    assert After(one, b) == two by {
      assert one.roles[1 := RoleRow("ops", "Ops", false, false)] == two.roles;
    }
    NextIs(two, 0, "all", 1);
    assert After(two, c) == TwoRoles;
    ThreeCommands(a, b, c);
  }

  const TwoRolesSnapshot: Catalog := Catalog("c", "1.0.0",
    [JobRole("dev", "Dev", false, AllLevels, []), JobRole("ops", "Ops", false, [None], [])], [])

  lemma TwoRolesBuilt()
    ensures BuiltFrom(TwoRoles.(versions := AfterPublish(TwoRoles.versions, 0)), "c", TwoRolesSnapshot)
  {
    var db := TwoRoles.(versions := AfterPublish(TwoRoles.versions, 0));
    var rows, roles := [JoinedRow(0, Some(0)), JoinedRow(1, None)], TwoRolesSnapshot.roles;
    assert PublishedFor(db, 0, 0) && !HasPublished(db, 1);
    assert QueryResult(db, rows) by {
      forall row | Joins(db, row)
        ensures row in rows
      {
        assert row == rows[row.role];
      }
    }
    assert TopPublished(db, 0, 0);
    assert EntryOf(db, rows[0], roles[0]) && EntryOf(db, rows[1], roles[1]);
    assert rows[..1] == [rows[0]] && roles[..1] == [roles[0]];
    assert [rows[0]][..0] == [] && [roles[0]][..0] == [];
    assert Entries(db, [], []);
    assert Entries(db, [rows[0]], [roles[0]]);
    assert Entries(db, rows, roles);
  }

  /**
    Create two roles and publish a draft of the first: the validator accepts the stored
    catalog, but the engine cannot decode it, because the second role has no seniority.
  */
  lemma UnpublishedRoleWitness()
    ensures var before := [CreateRole(0, "dev", "Dev"), CreateRole(1, "ops", "Ops"), CreateDraft(0, 0, "all")];
      var after := History(Empty, before + [Publish(0, "c", TwoRolesSnapshot, 0)]);
      && "c" in after.snapshots && after.snapshots["c"].snapshot == TwoRolesSnapshot
      && !Decodable(TwoRolesSnapshot) && Accepted(TwoRolesSnapshot)
  {
    CreateTwo();
    TwoRolesBuilt();
    HistorySnoc(Empty, [CreateRole(0, "dev", "Dev"), CreateRole(1, "ops", "Ops"), CreateDraft(0, 0, "all")],
                Publish(0, "c", TwoRolesSnapshot, 0));
    assert TwoRolesSnapshot.roles[1].seniorities[0].None?;
  }
}
