/**
 * The database the controllers share: the tables the model needs, the
 * RoleMapping join relation and the set of tables the schema holds.
 */
module Db {
  import opened Records
  import opened Crud

  /** One row of the RoleMapping liaison table. */
  datatype RoleLink = RoleLink(roleId: nat, userId: nat)

  /** A row whose `name` column holds `name`. */
  predicate IsNamed(rec: Record, name: string)
  {
    Matches(rec, Where("name", Str(name)))
  }

  /** Some row is named `name`. */
  predicate NameExists(rows: map<nat, Record>, name: string)
  {
    AnyMatch(rows, Where("name", Str(name)))
  }

  /** A row whose `email` column holds `email`. */
  predicate HasEmail(rec: Record, email: string)
  {
    Matches(rec, Where("email", Str(email)))
  }

  /** Some user has `email`. */
  predicate EmailExists(rows: map<nat, Record>, email: string)
  {
    AnyMatch(rows, Where("email", Str(email)))
  }

  /** A unique constraint on column `col` (User.email, Role.name, ...). */
  ghost predicate Unique(rows: map<nat, Record>, col: string)
  {
    forall i, j :: i in rows && j in rows && col in rows[i] && col in rows[j] && rows[i][col] == rows[j][col] ==> i == j
  }

  /** Inserting a row whose `col` value no row holds keeps the column unique. */
  lemma FreshValueStaysUnique(rows: map<nat, Record>, col: string, id: nat, rec: Record)
    requires Unique(rows, col) && id !in rows && col in rec
    requires !AnyMatch(rows, Where(col, rec[col]))
    ensures Unique(rows[id := rec], col)
  {
    assert forall k :: k in rows && col in rows[k] ==> rows[k][col] != rec[col] by {
      forall k | k in rows && col in rows[k]
        ensures rows[k][col] != rec[col]
      {
        assert !Matches(rows[k], Where(col, rec[col]));
      }
    }
  }

  /** `uid` is mapped to a role named `admin`. */
  predicate IsAdmin(roles: map<nat, Record>, mapping: set<RoleLink>, uid: int)
  {
    exists l :: l in mapping && l.userId == uid && l.roleId in roles && IsNamed(roles[l.roleId], "admin")
  }

  /** Both ends of a RoleMapping link exist: `roleId` references Role.id, `userId` references User.id. */
  predicate LinkAllowed(roles: map<nat, Record>, users: map<nat, Record>, link: RoleLink)
  {
    link.roleId in roles && link.userId in users
  }

  /** Each table's DDL ran at most once, and only for a table the schema holds. */
  ghost predicate DdlLogged(log: seq<string>, tables: set<string>)
  {
    && (forall i, j :: 0 <= i < j < |log| ==> log[i] != log[j])
    && (forall i :: 0 <= i < |log| ==> log[i] in tables)
  }

  class Database {
    const users: Table
    const roles: Table
    const tokens: Table
    const orders: Table
    var roleMapping: set<RoleLink>
    /** The tables the schema holds. */
    var tables: set<string>
    /** Every `createTable` that ran its DDL, in order. */
    ghost var ddlLog: seq<string>

    ghost predicate Valid()
      reads this, users, roles, tokens, orders
    {
      && users != roles && users != tokens && users != orders
      && roles != tokens && roles != orders && tokens != orders
      && users.Valid() && roles.Valid() && tokens.Valid() && orders.Valid()
      && DdlLogged(ddlLog, tables)
    }

    /**
     * `attach` on the RoleMapping relation. The store refuses a link whose role
     * or user does not exist (the foreign keys of RoleMapping); the relation
     * is a set, so re-attaching a present link adds nothing.
     */
    method Attach(link: RoleLink) returns (r: Result<()>)
      requires Valid()
      modifies this
      ensures Valid() && tables == old(tables) && ddlLog == old(ddlLog)
      ensures LinkAllowed(roles.rows, users.rows, link) ==> r == Ok(()) && roleMapping == old(roleMapping) + {link}
      ensures !LinkAllowed(roles.rows, users.rows, link) ==> r == Err(ConstraintViolation) && roleMapping == old(roleMapping)
    {
      if !LinkAllowed(roles.rows, users.rows, link) {
        return Err(ConstraintViolation);
      }
      roleMapping := roleMapping + {link};
      r := Ok(());
    }

    /** An empty database: no tables, no rows. */
    constructor ()
      ensures Valid() && fresh(users) && fresh(roles) && fresh(tokens) && fresh(orders)
      ensures tables == {} && ddlLog == [] && roleMapping == {}
      ensures users.rows == roles.rows == tokens.rows == orders.rows == map[]
    {
      users := new Table();
      roles := new Table();
      tokens := new Table();
      orders := new Table();
      roleMapping := {};
      tables := {};
      ddlLog := [];
    }
  }
}
