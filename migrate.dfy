/**
 * The bootstrap migration: create each table unless it exists, seed the
 * roles, then seed the admin user. Re-running it changes nothing.
 */
module Migrate {
  import opened Records
  import opened Crud
  import opened Db
  import Users

  /** The main tables, in the order the migration creates them. */
  const MainTables: seq<string> := ["User", "Product", "Menu", "Order", "Role", "AccessToken", "Promotion"]

  /** The liaison tables, in the order the migration creates them. */
  const LiaisonTables: seq<string> := ["ProductMenu", "OrderProduct", "OrderMenu", "RoleMapping", "PromotionProduct", "PromotionMenu"]

  /** Every table, in creation order. */
  const TableNames: seq<string> := MainTables + LiaisonTables

  /** The main tables as a set (a display, which the table steps compare against directly). */
  const MainSet: set<string> := {"User", "Product", "Menu", "Order", "Role", "AccessToken", "Promotion"}

  /** The liaison tables as a set. */
  const LiaisonSet: set<string> := {"ProductMenu", "OrderProduct", "OrderMenu", "RoleMapping", "PromotionProduct", "PromotionMenu"}

  /** Every table as a set. */
  const TableSet: set<string> := MainSet + LiaisonSet

  /** The set constants hold exactly the tables the creation-order lists name. */
  lemma TableSetsListTables()
    ensures MainSet == set n | n in MainTables
    ensures LiaisonSet == set n | n in LiaisonTables
    ensures TableSet == set n | n in TableNames
  {
  }

  /** The roles the migration seeds. */
  const RoleNames: seq<string> := ["admin"]

  /** The configured admin account. */
  datatype AdminConfig = AdminConfig(email: string, password: string)

  function AdminFields(admin: AdminConfig): (r: Record)
    ensures r.Keys == {"email", "password"}
    ensures HasEmail(r, admin.email) && r["password"] == Str(admin.password)
  {
    map["email" := Str(admin.email), "password" := Str(admin.password)]
  }

  /** The row the migration stores for the admin under key `id`: the configured fields, password hashed. */
  function AdminRow(admin: AdminConfig, hash: string -> string, id: nat): (r: Record)
    ensures r.Keys == {"email", "password", "id"}
    ensures HasEmail(r, admin.email) && r["password"] == Str(hash(admin.password)) && r["id"] == Int(id)
  {
    WithId(Users.HashedPassword(AdminFields(admin), hash), id)
  }

  /** Creates table `name` unless the schema already holds it. */
  method CreateTable(db: Database, name: string)
    requires db.Valid()
    modifies db
    ensures db.Valid() && db.roleMapping == old(db.roleMapping)
    ensures db.tables == old(db.tables) + {name}
    ensures db.ddlLog == old(db.ddlLog) + (if name in old(db.tables) then [] else [name])
  {
    if name in db.tables {
      return;
    }
    db.tables := db.tables + {name};
    db.ddlLog := db.ddlLog + [name];
  }

  /** Every name some earlier row had is still some row's name. */
  lemma NamesSurvive(rows: map<nat, Record>, before: map<nat, Record>, names: seq<string>)
    requires Extends(rows, before)
    requires forall j :: 0 <= j < |names| ==> NameExists(before, names[j])
    ensures forall j :: 0 <= j < |names| ==> NameExists(rows, names[j])
  {
    forall j | 0 <= j < |names|
      ensures NameExists(rows, names[j])
    {
      ExtendsKeepsMatch(rows, before, Where("name", Str(names[j])));
    }
  }

  /** One pass of the role loop: `role` is created unless a role row already has that name. */
  method SeedRole(roles: Table, role: string)
    requires roles.Valid()
    modifies roles
    ensures roles.Valid() && NameExists(roles.rows, role)
    ensures Extends(roles.rows, old(roles.rows))
    ensures NameExists(old(roles.rows), role) ==> roles.rows == old(roles.rows) && roles.nextId == old(roles.nextId)
    ensures !NameExists(old(roles.rows), role) ==>
              roles.rows == old(roles.rows)[old(roles.nextId) := WithId(Where("name", Str(role)), old(roles.nextId))] &&
              roles.nextId == old(roles.nextId) + 1
    ensures Unique(old(roles.rows), "name") ==> Unique(roles.rows, "name")
  {
    var roleExists := roles.Exists(Where("name", Str(role)));
    if roleExists {
      return;
    }
    var id := roles.nextId;
    var created := roles.Create(Where("name", Str(role)));
    InsertKeeps(old(roles.rows), old(roles.rows), id, created);
    assert Matches(roles.rows[id], Where("name", Str(role)));
    if Unique(old(roles.rows), "name") {
      FreshValueStaysUnique(old(roles.rows), "name", id, created);
    }
  }

  /** Seeds every role of RoleNames that no role row is named after yet. */
  method CreateRoles(roles: Table)
    requires roles.Valid()
    modifies roles
    ensures roles.Valid()
    ensures forall i :: 0 <= i < |RoleNames| ==> NameExists(roles.rows, RoleNames[i])
    ensures Extends(roles.rows, old(roles.rows))
    ensures (forall i :: 0 <= i < |RoleNames| ==> NameExists(old(roles.rows), RoleNames[i])) ==>
              roles.rows == old(roles.rows) && roles.nextId == old(roles.nextId)
    ensures Unique(old(roles.rows), "name") ==> Unique(roles.rows, "name")
  {
    var i := 0;
    while i < |RoleNames|
      invariant 0 <= i <= |RoleNames|
      invariant roles.Valid()
      invariant forall j :: 0 <= j < i ==> NameExists(roles.rows, RoleNames[..i][j])
      invariant Extends(roles.rows, old(roles.rows))
      invariant (forall j :: 0 <= j < |RoleNames| ==> NameExists(old(roles.rows), RoleNames[j])) ==>
                  roles.rows == old(roles.rows) && roles.nextId == old(roles.nextId)
      invariant Unique(old(roles.rows), "name") ==> Unique(roles.rows, "name")
    {
      ghost var before := roles.rows;
      SeedRole(roles, RoleNames[i]);
      ExtendsChain(roles.rows, before, old(roles.rows));
      NamesSurvive(roles.rows, before, RoleNames[..i]);
      i := i + 1;
    }
  }

  /** The user half of the admin seeding: insert the configured admin unless a user has its email. */
  method InsertAdmin(users: Table, admin: AdminConfig, hash: string -> string) returns (created: bool)
    requires users.Valid()
    modifies users
    ensures users.Valid()
    ensures created <==> !EmailExists(old(users.rows), admin.email)
    ensures !created ==> users.rows == old(users.rows) && users.nextId == old(users.nextId)
    ensures created ==> users.rows == old(users.rows)[old(users.nextId) := AdminRow(admin, hash, old(users.nextId))] &&
                        users.nextId == old(users.nextId) + 1
  {
    var adminExists := users.Exists(Where("email", Str(admin.email)));
    if adminExists {
      return false;
    }
    var data := new Users.Payload(AdminFields(admin));
    var user := Users.Create(users, data, hash);
    assert user == AdminRow(admin, hash, old(users.nextId));
    created := true;
  }

  /**
   * Seeds the admin user unless a user with the admin email exists, and
   * grants it the admin role.
   */
  method CreateAdmin(db: Database, admin: AdminConfig, hash: string -> string)
    requires db.Valid()
    modifies db, db.users
    ensures db.Valid()
    ensures db.tables == old(db.tables) && db.ddlLog == old(db.ddlLog)
    ensures EmailExists(old(db.users.rows), admin.email) ==>
              db.users.rows == old(db.users.rows) && db.users.nextId == old(db.users.nextId) && db.roleMapping == old(db.roleMapping)
    ensures !EmailExists(old(db.users.rows), admin.email) ==>
              db.users.rows == old(db.users.rows)[old(db.users.nextId) := AdminRow(admin, hash, old(db.users.nextId))] &&
              db.users.nextId == old(db.users.nextId) + 1
    ensures forall l :: l in db.roleMapping - old(db.roleMapping) ==>
              l.userId == old(db.users.nextId) && l.roleId in db.roles.rows && IsNamed(db.roles.rows[l.roleId], "admin")
    ensures !EmailExists(old(db.users.rows), admin.email) && NameExists(db.roles.rows, "admin") ==>
              IsAdmin(db.roles.rows, db.roleMapping, old(db.users.nextId))
  {
    var uid := db.users.nextId;
    var created := InsertAdmin(db.users, admin, hash);
    if !created {
      return;
    }
    if rid :| rid in db.roles.rows && IsNamed(db.roles.rows[rid], "admin") {
      assert uid in db.users.rows;
      var _ := db.Attach(RoleLink(rid, uid));
      assert RoleLink(rid, uid) in db.roleMapping;
    }
  }

  /**
   * The admin seeding as written: the grant attaches the role whose id is the
   * new user's id, whichever role that is. The RoleMapping foreign key refuses
   * that link when no role has that id, and the migration then fails with the
   * admin user already inserted. The created user is taken to be a model
   * instance with a `roles()` relation.
   */
  method CreateAdminAsWritten(db: Database, admin: AdminConfig, hash: string -> string) returns (r: Result<()>)
    requires db.Valid()
    modifies db, db.users
    ensures db.Valid()
    ensures db.tables == old(db.tables) && db.ddlLog == old(db.ddlLog)
    ensures EmailExists(old(db.users.rows), admin.email) ==>
              r == Ok(()) && db.users.rows == old(db.users.rows) && db.users.nextId == old(db.users.nextId) &&
              db.roleMapping == old(db.roleMapping)
    ensures !EmailExists(old(db.users.rows), admin.email) ==>
              db.users.rows == old(db.users.rows)[old(db.users.nextId) := AdminRow(admin, hash, old(db.users.nextId))] &&
              db.users.nextId == old(db.users.nextId) + 1
    ensures !EmailExists(old(db.users.rows), admin.email) && old(db.users.nextId) in db.roles.rows ==>
              r == Ok(()) && db.roleMapping == old(db.roleMapping) + {RoleLink(old(db.users.nextId), old(db.users.nextId))}
    ensures !EmailExists(old(db.users.rows), admin.email) && old(db.users.nextId) !in db.roles.rows ==>
              r == Err(ConstraintViolation) && db.roleMapping == old(db.roleMapping)
  {
    var uid := db.users.nextId;
    var created := InsertAdmin(db.users, admin, hash);
    if !created {
      return Ok(());
    }
    assert uid in db.users.rows;
    r := db.Attach(RoleLink(uid, uid));
  }

  /**
   * The as-written grant leaves the new admin without the admin role whenever
   * no admin role has the user's id; the corrected grant of the admin role's id does not.
   */
  lemma AsWrittenGrantMissesAdmin(roles: map<nat, Record>, mapping: set<RoleLink>, uid: nat, rid: nat)
    requires !IsAdmin(roles, mapping, uid)
    requires !(uid in roles && IsNamed(roles[uid], "admin"))
    requires rid in roles && IsNamed(roles[rid], "admin")
    ensures !IsAdmin(roles, mapping + {RoleLink(uid, uid)}, uid)
    ensures IsAdmin(roles, mapping + {RoleLink(rid, uid)}, uid)
  {
    assert RoleLink(rid, uid) in mapping + {RoleLink(rid, uid)};
  }

  /**
   * A database whose User table already used key 1 (auto-increment at 2)
   * while the Role table is fresh: the admin role gets id 1, the admin user
   * id 2. The as-written link (2, 2) names no role, so the store refuses it
   * and the admin stays without the admin role; the corrected link (1, 2) is
   * accepted and makes the user an admin.
   */
  lemma AsWrittenCounterexample()
    ensures var roles := map[1 := WithId(Where("name", Str("admin")), 1)];
            var users := map[1 := Where("email", Str("old@example.com")), 2 := Where("email", Str("admin@example.com"))];
            && !LinkAllowed(roles, users, RoleLink(2, 2))
            && !IsAdmin(roles, {}, 2)
            && LinkAllowed(roles, users, RoleLink(1, 2))
            && IsAdmin(roles, {RoleLink(1, 2)}, 2)
  {
    var roles := map[1 := WithId(Where("name", Str("admin")), 1)];
    AsWrittenGrantMissesAdmin(roles, {}, 2, 1);
    assert {} + {RoleLink(1, 2)} == {RoleLink(1, 2)};
  }

  /** The main-table steps, each only when the table is missing. */
  method CreateMainTables(db: Database)
    requires db.Valid()
    modifies db
    ensures db.Valid() && db.roleMapping == old(db.roleMapping)
    ensures db.tables == old(db.tables) + MainSet
    ensures old(db.tables) == {} ==> db.ddlLog == old(db.ddlLog) + MainTables
    ensures MainSet <= old(db.tables) ==> db.ddlLog == old(db.ddlLog)
  {
    CreateTable(db, "User");
    CreateTable(db, "Product");
    CreateTable(db, "Menu");
    CreateTable(db, "Order");
    CreateTable(db, "Role");
    CreateTable(db, "AccessToken");
    CreateTable(db, "Promotion");
  }

  /** The liaison-table steps, each only when the table is missing. */
  method CreateLiaisonTables(db: Database)
    requires db.Valid()
    modifies db
    ensures db.Valid() && db.roleMapping == old(db.roleMapping)
    ensures db.tables == old(db.tables) + LiaisonSet
    ensures LiaisonSet !! old(db.tables) ==> db.ddlLog == old(db.ddlLog) + LiaisonTables
    ensures LiaisonSet <= old(db.tables) ==> db.ddlLog == old(db.ddlLog)
  {
    CreateTable(db, "ProductMenu");
    CreateTable(db, "OrderProduct");
    CreateTable(db, "OrderMenu");
    CreateTable(db, "RoleMapping");
    CreateTable(db, "PromotionProduct");
    CreateTable(db, "PromotionMenu");
  }

  /** The migration's table steps: main tables, then liaison tables. On an empty schema the DDL runs in exactly that order. */
  method CreateTables(db: Database)
    requires db.Valid()
    modifies db
    ensures db.Valid() && db.roleMapping == old(db.roleMapping)
    ensures db.tables == old(db.tables) + TableSet
    ensures old(db.tables) == {} ==> db.ddlLog == old(db.ddlLog) + TableNames
    ensures TableSet <= old(db.tables) ==> db.tables == old(db.tables) && db.ddlLog == old(db.ddlLog)
  {
    CreateMainTables(db);
    CreateLiaisonTables(db);
  }

  /** Every table exists, every role is seeded and the admin user exists. */
  ghost predicate Seeded(db: Database, admin: AdminConfig)
    reads db, db.users, db.roles
  {
    && TableSet <= db.tables
    && (forall i :: 0 <= i < |RoleNames| ==> NameExists(db.roles.rows, RoleNames[i]))
    && EmailExists(db.users.rows, admin.email)
  }

  /** The application-data steps: roles first, then the admin user, so the admin role exists when it is granted. */
  method SeedData(db: Database, admin: AdminConfig, hash: string -> string)
    requires db.Valid()
    modifies db, db.users, db.roles
    ensures db.Valid() && db.tables == old(db.tables) && db.ddlLog == old(db.ddlLog)
    ensures forall i :: 0 <= i < |RoleNames| ==> NameExists(db.roles.rows, RoleNames[i])
    ensures EmailExists(db.users.rows, admin.email)
    ensures (forall i :: 0 <= i < |RoleNames| ==> NameExists(old(db.roles.rows), RoleNames[i])) && EmailExists(old(db.users.rows), admin.email) ==>
              && db.users.rows == old(db.users.rows) && db.users.nextId == old(db.users.nextId)
              && db.roles.rows == old(db.roles.rows) && db.roles.nextId == old(db.roles.nextId)
              && db.roleMapping == old(db.roleMapping)
    ensures !EmailExists(old(db.users.rows), admin.email) ==>
              old(db.users.nextId) in db.users.rows &&
              db.users.rows[old(db.users.nextId)] == AdminRow(admin, hash, old(db.users.nextId)) &&
              IsAdmin(db.roles.rows, db.roleMapping, old(db.users.nextId))
    ensures Unique(old(db.roles.rows), "name") ==> Unique(db.roles.rows, "name")
  {
    CreateRoles(db.roles);
    assert NameExists(db.roles.rows, RoleNames[0]);
    CreateAdmin(db, admin, hash);
    if !EmailExists(old(db.users.rows), admin.email) {
      assert HasEmail(db.users.rows[old(db.users.nextId)], admin.email);
    }
  }

  /**
   * The whole migration: tables, then roles, then the admin. Afterwards the
   * database is seeded; on a database already seeded it changes nothing, so
   * running it a second time is a no-op.
   */
  method Migrate(db: Database, admin: AdminConfig, hash: string -> string)
    requires db.Valid()
    modifies db, db.users, db.roles
    ensures db.Valid() && Seeded(db, admin)
    ensures db.tables == old(db.tables) + TableSet
    ensures old(Seeded(db, admin)) ==>
              && db.tables == old(db.tables) && db.ddlLog == old(db.ddlLog)
              && db.users.rows == old(db.users.rows) && db.users.nextId == old(db.users.nextId)
              && db.roles.rows == old(db.roles.rows) && db.roles.nextId == old(db.roles.nextId)
              && db.roleMapping == old(db.roleMapping)
    ensures !EmailExists(old(db.users.rows), admin.email) ==>
              old(db.users.nextId) in db.users.rows &&
              db.users.rows[old(db.users.nextId)] == AdminRow(admin, hash, old(db.users.nextId)) &&
              IsAdmin(db.roles.rows, db.roleMapping, old(db.users.nextId))
    ensures Unique(old(db.roles.rows), "name") ==> Unique(db.roles.rows, "name")
  {
    CreateTables(db);
    SeedData(db, admin, hash);
  }

  /**
   * The application-data steps as written: roles, then the admin with the
   * as-written grant. On a seeded database it changes nothing, like SeedData.
   */
  method SeedDataAsWritten(db: Database, admin: AdminConfig, hash: string -> string) returns (r: Result<()>)
    requires db.Valid()
    modifies db, db.users, db.roles
    ensures db.Valid() && db.tables == old(db.tables) && db.ddlLog == old(db.ddlLog)
    ensures forall i :: 0 <= i < |RoleNames| ==> NameExists(db.roles.rows, RoleNames[i])
    ensures EmailExists(db.users.rows, admin.email)
    ensures (forall i :: 0 <= i < |RoleNames| ==> NameExists(old(db.roles.rows), RoleNames[i])) && EmailExists(old(db.users.rows), admin.email) ==>
              && r == Ok(())
              && db.users.rows == old(db.users.rows) && db.users.nextId == old(db.users.nextId)
              && db.roles.rows == old(db.roles.rows) && db.roles.nextId == old(db.roles.nextId)
              && db.roleMapping == old(db.roleMapping)
    ensures !EmailExists(old(db.users.rows), admin.email) ==>
              && old(db.users.nextId) in db.users.rows
              && db.users.rows[old(db.users.nextId)] == AdminRow(admin, hash, old(db.users.nextId))
              && (r.Ok? <==> old(db.users.nextId) in db.roles.rows)
              && (r.Ok? ==> db.roleMapping == old(db.roleMapping) + {RoleLink(old(db.users.nextId), old(db.users.nextId))})
              && (r.Err? ==> r.error == ConstraintViolation && db.roleMapping == old(db.roleMapping))
  {
    CreateRoles(db.roles);
    assert NameExists(db.roles.rows, RoleNames[0]);
    r := CreateAdminAsWritten(db, admin, hash);
    if !EmailExists(old(db.users.rows), admin.email) {
      assert HasEmail(db.users.rows[old(db.users.nextId)], admin.email);
    }
  }

  /**
   * The whole migration as written. It keeps the idempotence of Migrate: on
   * a seeded database it succeeds and changes nothing.
   */
  method MigrateAsWritten(db: Database, admin: AdminConfig, hash: string -> string) returns (r: Result<()>)
    requires db.Valid()
    modifies db, db.users, db.roles
    ensures db.Valid() && Seeded(db, admin)
    ensures db.tables == old(db.tables) + TableSet
    ensures old(Seeded(db, admin)) ==>
              && r == Ok(())
              && db.tables == old(db.tables) && db.ddlLog == old(db.ddlLog)
              && db.users.rows == old(db.users.rows) && db.users.nextId == old(db.users.nextId)
              && db.roles.rows == old(db.roles.rows) && db.roles.nextId == old(db.roles.nextId)
              && db.roleMapping == old(db.roleMapping)
    ensures !EmailExists(old(db.users.rows), admin.email) ==>
              && old(db.users.nextId) in db.users.rows
              && db.users.rows[old(db.users.nextId)] == AdminRow(admin, hash, old(db.users.nextId))
              && (r.Ok? <==> old(db.users.nextId) in db.roles.rows)
              && (r.Ok? ==> db.roleMapping == old(db.roleMapping) + {RoleLink(old(db.users.nextId), old(db.users.nextId))})
              && (r.Err? ==> r.error == ConstraintViolation && db.roleMapping == old(db.roleMapping))
  {
    CreateTables(db);
    r := SeedDataAsWritten(db, admin, hash);
  }

  /**
   * A second run of the migration, as every restart of the service does: on
   * a seeded database it issues no DDL and writes no row.
   */
  method MigrateAgain(db: Database, admin: AdminConfig, hash: string -> string)
    requires db.Valid() && Seeded(db, admin)
    modifies db, db.users, db.roles
    ensures db.Valid() && Seeded(db, admin)
    ensures db.tables == old(db.tables) && db.ddlLog == old(db.ddlLog)
    ensures db.users.rows == old(db.users.rows) && db.users.nextId == old(db.users.nextId)
    ensures db.roles.rows == old(db.roles.rows) && db.roles.nextId == old(db.roles.nextId)
    ensures db.roleMapping == old(db.roleMapping)
  {
    Migrate(db, admin, hash);
  }
}
