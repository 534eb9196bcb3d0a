/**
 * The schema manager of version 2: the stored schema version, the ordered
 * list of migrations that bring it up to 2.0.0, the table-name map and the
 * two schema queries (index present, tables present).
 *
 * Version strings "x.y.z" are sequences of numbers compared
 * lexicographically. The database is the set of schema objects (tables and
 * indexes) that exist. A migration that throws is an input: the set of
 * versions whose migration fails.
 */
module DatabaseManager {
  import opened Php

  type Version = seq<nat>

  /** `version_compare(a, b, '<')` on numeric "x.y.z" strings. */
  predicate Below(a: Version, b: Version)
    decreases |a|
  {
    if a == [] then b != []
    else if b == [] then false
    else a[0] < b[0] || (a[0] == b[0] && Below(a[1..], b[1..]))
  }

  lemma {:induction false} BelowIrreflexive(a: Version)
    ensures !Below(a, a)
    decreases |a|
  {
    if a != [] {
      BelowIrreflexive(a[1..]);
    }
  }

  lemma {:induction false} BelowTransitive(a: Version, b: Version, c: Version)
    requires Below(a, b) && Below(b, c)
    ensures Below(a, c)
    decreases |a|
  {
    if a != [] && b != [] && c != [] && a[0] == b[0] == c[0] {
      BelowTransitive(a[1..], b[1..], c[1..]);
    }
  }

  const TargetVersion: Version := [2, 0, 0]
  const MissingVersion: Version := [0, 0, 0]

  /** The migrations in the order they are listed. */
  const Migrations: seq<Version> := [[1, 0, 0], [1, 1, 0], [2, 0, 0]]

  /** Each version is above the one before it. */
  predicate Ascending(vs: seq<Version>) {
    forall i, j :: 0 <= i < j < |vs| ==> Below(vs[i], vs[j])
  }

  lemma MigrationsAscending()
    ensures Ascending(Migrations)
  {
    assert Below(Migrations[0], Migrations[1]);
    assert Below(Migrations[1], Migrations[2]);
    assert Below(Migrations[0], Migrations[2]);
  }

  /** The six logical table names. */
  const TableKeys: seq<string> :=
    ["campaigns", "claimed_codes", "email_verifications", "waitlist", "performance_metrics", "audit_log"]

  function PrefixedName(prefix: string, key: string): (r: string)
    ensures StartsWith(r, prefix) && EndsWith(r, key)
  {
    prefix + "wcfd_" + key
  }

  function TableMap(prefix: string): (m: map<string, string>)
    ensures m.Keys == set k | k in TableKeys
    ensures forall k :: k in m ==> m[k] == PrefixedName(prefix, k)
  {
    map k | k in TableKeys :: PrefixedName(prefix, k)
  }

  datatype SchemaObject = Table(name: string) | Index(table: string, index: string)

  /** What a successful migration leaves in the schema. */
  function Creates(v: Version, prefix: string): (r: set<SchemaObject>)
    ensures v !in Migrations ==> r == {}
  {
    if v == [1, 0, 0] then
      { Table(PrefixedName(prefix, "campaigns")), Table(PrefixedName(prefix, "claimed_codes")),
        Table(PrefixedName(prefix, "email_verifications")), Table(PrefixedName(prefix, "waitlist")) }
    else if v == [1, 1, 0] then { Table(PrefixedName(prefix, "performance_metrics")) }
    else if v == [2, 0, 0] then
      { Table(PrefixedName(prefix, "audit_log")),
        Index(PrefixedName(prefix, "claimed_codes"), "idx_campaign_verified"),
        Index(PrefixedName(prefix, "claimed_codes"), "idx_ip_campaign") }
    else {}
  }

  function CreatesAll(vs: seq<Version>, prefix: string): set<SchemaObject> {
    if vs == [] then {} else Creates(vs[0], prefix) + CreatesAll(vs[1..], prefix)
  }

  lemma {:induction false} CreatesAllAppend(vs: seq<Version>, v: Version, prefix: string)
    ensures CreatesAll(vs + [v], prefix) == CreatesAll(vs, prefix) + Creates(v, prefix)
  {
    if vs != [] {
      assert (vs + [v])[1..] == vs[1..] + [v];
      CreatesAllAppend(vs[1..], v, prefix);
    }
  }

  /**
   * The `migrate` loop on a list of migrations: run, in order, each one newer
   * than the current version; stop at the first that throws. The result is
   * the final version and the versions applied.
   */
  function MigrateFrom(vs: seq<Version>, current: Version, failing: set<Version>): (r: (Version, seq<Version>))
    ensures |r.1| <= |vs|
    ensures r.1 == [] ==> r.0 == current
  {
    if vs == [] then (current, [])
    else if !Below(current, vs[0]) then MigrateFrom(vs[1..], current, failing)
    else if vs[0] in failing then (current, [])
    else
      var (last, rest) := MigrateFrom(vs[1..], vs[0], failing);
      (last, [vs[0]] + rest)
  }

  /** The run ends at the last version applied, and applies only listed versions that do not throw. */
  lemma {:induction false} MigrateEndsAtLast(vs: seq<Version>, current: Version, failing: set<Version>)
    ensures var r := MigrateFrom(vs, current, failing);
      && (r.1 == [] ==> r.0 == current)
      && (r.1 != [] ==> r.0 == r.1[|r.1| - 1])
      && forall v :: v in r.1 ==> v in vs && v !in failing
    decreases |vs|
  {
    if vs != [] {
      if !Below(current, vs[0]) {
        MigrateEndsAtLast(vs[1..], current, failing);
      } else if vs[0] !in failing {
        MigrateEndsAtLast(vs[1..], vs[0], failing);
      }
    }
  }

  /** Only versions newer than the starting one are applied, each newer than the last. */
  lemma {:induction false} MigrateOnlyNewer(vs: seq<Version>, current: Version, failing: set<Version>)
    ensures var applied := MigrateFrom(vs, current, failing).1;
      (forall v :: v in applied ==> Below(current, v))
      && forall i :: 0 < i < |applied| ==> Below(applied[i - 1], applied[i])
    decreases |vs|
  {
    if vs != [] {
      MigrateOnlyNewer(vs[1..], current, failing);
      if Below(current, vs[0]) && vs[0] !in failing {
        MigrateOnlyNewer(vs[1..], vs[0], failing);
        var rest := MigrateFrom(vs[1..], vs[0], failing).1;
        forall v | v in rest ensures Below(current, v) {
          BelowTransitive(current, vs[0], v);
        }
      }
    }
  }

  /** The version never goes down. */
  lemma MigrateMonotone(vs: seq<Version>, current: Version, failing: set<Version>)
    ensures var r := MigrateFrom(vs, current, failing);
      r.0 == current || Below(current, r.0)
  {
    MigrateEndsAtLast(vs, current, failing);
    MigrateOnlyNewer(vs, current, failing);
  }

  /** In an ascending list, the first newer migration that throws ends the run: nothing at or after it is applied. */
  lemma {:induction false} MigrateStopsAtFailure(vs: seq<Version>, k: nat, current: Version, failing: set<Version>)
    requires Ascending(vs)
    requires k < |vs| && Below(current, vs[k]) && vs[k] in failing
    ensures forall v :: v in MigrateFrom(vs, current, failing).1 ==> v in vs[..k]
    decreases |vs|
  {
    if k > 0 {
      assert Ascending(vs[1..]) by {
        forall i, j | 0 <= i < j < |vs[1..]| ensures Below(vs[1..][i], vs[1..][j]) {
          assert vs[1..][i] == vs[i + 1] && vs[1..][j] == vs[j + 1];
        }
      }
      assert vs[1..][k - 1] == vs[k];
      assert vs[1..][..k - 1] == vs[1..k];
      if !Below(current, vs[0]) {
        MigrateStopsAtFailure(vs[1..], k - 1, current, failing);
      } else if vs[0] !in failing {
        MigrateStopsAtFailure(vs[1..], k - 1, vs[0], failing);
        var rest := MigrateFrom(vs[1..], vs[0], failing).1;
        forall v | v in MigrateFrom(vs, current, failing).1 ensures v in vs[..k] {
          if v != vs[0] {
            assert v in rest;
          }
        }
      }
    }
  }

  /** With no failure, a store below the target ends at every migration's effects and the target version. */
  lemma FreshInstall(failing: set<Version>)
    requires forall v :: v in Migrations ==> v !in failing
    ensures MigrateFrom(Migrations, MissingVersion, failing) == (TargetVersion, Migrations)
  {
    var v0, v1, v2 := Migrations[0], Migrations[1], Migrations[2];
    var last: seq<Version>, pair: seq<Version> := [v2], [v1, v2];
    assert v0 !in failing && v1 !in failing && v2 !in failing;
    assert Below(MissingVersion, v0) && Below(v0, v1) && Below(v1, v2);
    assert |last[1..]| == 0 && pair[1..] == last && Migrations[1..] == pair;
    assert MigrateFrom(last[1..], v2, failing) == (v2, last[1..]);
    assert [v2] + last[1..] == last;
    assert MigrateFrom(last, v1, failing) == (v2, last);
    assert pair[0] == v1 && Migrations[0] == v0;
    assert MigrateFrom(pair, v0, failing) == (MigrateFrom(last, v1, failing).0, [v1] + MigrateFrom(last, v1, failing).1);
    assert [v1] + last == pair;
    assert MigrateFrom(pair, v0, failing) == (v2, pair);
    assert MigrateFrom(Migrations, MissingVersion, failing)
        == (MigrateFrom(pair, v0, failing).0, [v0] + MigrateFrom(pair, v0, failing).1);
    assert [v0] + pair == Migrations && v2 == TargetVersion;
  }

  /** A fresh install creates all six tables. */
  lemma FreshInstallCreatesTables(prefix: string)
    ensures forall k :: k in TableKeys ==> Table(PrefixedName(prefix, k)) in CreatesAll(Migrations, prefix)
  {
    var v0, v1, v2 := Migrations[0], Migrations[1], Migrations[2];
    var last: seq<Version>, pair: seq<Version> := [v2], [v1, v2];
    assert |last[1..]| == 0 && pair[1..] == last && Migrations[1..] == pair;
    var all := CreatesAll(Migrations, prefix);
    assert all == Creates(v0, prefix) + CreatesAll(pair, prefix);
    assert CreatesAll(pair, prefix) == Creates(v1, prefix) + CreatesAll(last, prefix);
    assert CreatesAll(last, prefix) == Creates(v2, prefix) + CreatesAll(last[1..], prefix);
    forall i | 0 <= i < |TableKeys| ensures Table(PrefixedName(prefix, TableKeys[i])) in all {
      if i < 4 {
        assert Table(PrefixedName(prefix, TableKeys[i])) in Creates(v0, prefix);
      } else if i == 4 {
        assert Table(PrefixedName(prefix, TableKeys[i])) in Creates(v1, prefix);
      } else {
        assert Table(PrefixedName(prefix, TableKeys[i])) in Creates(v2, prefix);
      }
    }
  }

  /** One turn of the `migrate` loop: a migration that is not newer is skipped, */
  lemma MigrateFromSkip(vs: seq<Version>, i: nat, current: Version, failing: set<Version>)
    requires i < |vs| && !Below(current, vs[i])
    ensures MigrateFrom(vs[i..], current, failing) == MigrateFrom(vs[i + 1..], current, failing)
  {
    assert vs[i..][1..] == vs[i + 1..];
  }

  /** a newer one that throws ends the loop, */
  lemma MigrateFromFail(vs: seq<Version>, i: nat, current: Version, failing: set<Version>)
    requires i < |vs| && Below(current, vs[i]) && vs[i] in failing
    ensures MigrateFrom(vs[i..], current, failing) == (current, [])
  {
  }

  /** and a newer one that succeeds is applied and becomes the current version. */
  lemma MigrateFromApply(vs: seq<Version>, i: nat, current: Version, failing: set<Version>)
    requires i < |vs| && Below(current, vs[i]) && vs[i] !in failing
    ensures MigrateFrom(vs[i..], current, failing).0 == MigrateFrom(vs[i + 1..], vs[i], failing).0
    ensures MigrateFrom(vs[i..], current, failing).1 == [vs[i]] + MigrateFrom(vs[i + 1..], vs[i], failing).1
  {
    assert vs[i..][1..] == vs[i + 1..];
  }

  class Manager {
    const prefix: string
    /** `wcfd_db_version` in the options table. */
    var storedVersion: Option<Version>
    var currentVersion: Version
    const tables: map<string, string>
    /** The schema objects present in the database. */
    var schema: set<SchemaObject>

    predicate Valid()
      reads this
    {
      tables == TableMap(prefix)
    }

    /** The version comes from the option, '0.0.0' when it is missing. */
    constructor(prefix: string, stored: Option<Version>, schema: set<SchemaObject>)
      ensures Valid() && this.prefix == prefix
      ensures storedVersion == stored && currentVersion == OrElse(stored, MissingVersion)
      ensures this.schema == schema
    {
      this.prefix := prefix;
      storedVersion := stored;
      currentVersion := OrElse(stored, MissingVersion);
      tables := TableMap(prefix);
      this.schema := schema;
    }

    /** `get_table`: the prefixed name of a known key, None for any other key. */
    function GetTable(key: string): (r: Option<string>)
      requires Valid()
      reads this
      ensures r.Some? <==> key in TableKeys
      ensures r.Some? ==> r.value == prefix + "wcfd_" + key
    {
      if key in tables then Some(tables[key]) else None
    }

    /** `add_index`: issues ALTER only when the index is absent. */
    method AddIndex(table: string, name: string) returns (issued: bool)
      modifies this
      ensures issued <==> Index(table, name) !in old(schema)
      ensures schema == old(schema) + {Index(table, name)}
      ensures storedVersion == old(storedVersion) && currentVersion == old(currentVersion)
    {
      issued := Index(table, name) !in schema;
      if issued {
        schema := schema + {Index(table, name)};
      }
    }

    /** One migration body: CREATE TABLE IF NOT EXISTS and, for 2.0.0, the two indexes. */
    method RunMigration(v: Version)
      requires Valid()
      modifies this
      ensures Valid()
      ensures schema == old(schema) + Creates(v, prefix)
      ensures storedVersion == old(storedVersion) && currentVersion == old(currentVersion)
    {
      if v == [1, 0, 0] {
        schema := schema + { Table(tables["campaigns"]), Table(tables["claimed_codes"]),
                             Table(tables["email_verifications"]), Table(tables["waitlist"]) };
      } else if v == [1, 1, 0] {
        schema := schema + { Table(tables["performance_metrics"]) };
      } else if v == [2, 0, 0] {
        schema := schema + { Table(tables["audit_log"]) };
        var _ := AddIndex(tables["claimed_codes"], "idx_campaign_verified");
        var _ := AddIndex(tables["claimed_codes"], "idx_ip_campaign");
      }
    }

    /** `migrate`: returns the number of migrations applied. */
    method Migrate(failing: set<Version>) returns (applied: nat)
      requires Valid()
      modifies this
      ensures Valid()
      ensures var r := MigrateFrom(Migrations, old(currentVersion), failing);
        && currentVersion == r.0 && applied == |r.1|
        && schema == old(schema) + CreatesAll(r.1, prefix)
        && storedVersion == (if r.1 == [] then old(storedVersion) else Some(r.0))
    {
      var vs := Migrations;
      var current := currentVersion;
      ghost var r := MigrateFrom(vs, current, failing);
      var i := 0;
      applied := 0;
      while i < |vs|
        invariant 0 <= i <= |vs| && Valid() && currentVersion == current
        invariant applied <= |r.1|
        invariant r.0 == MigrateFrom(vs[i..], current, failing).0
        invariant MigrateFrom(vs[i..], current, failing).1 == r.1[applied..]
        invariant applied == 0 ==> current == old(currentVersion) && storedVersion == old(storedVersion)
        invariant applied > 0 ==> storedVersion == Some(current)
        invariant schema == old(schema) + CreatesAll(r.1[..applied], prefix)
      {
        var v := vs[i];
        if !Below(current, v) {
          MigrateFromSkip(vs, i, current, failing);
        } else {
          if v in failing {
            MigrateFromFail(vs, i, current, failing);
            break;
          }
          MigrateFromApply(vs, i, current, failing);
          assert r.1[applied..][0] == v && r.1[applied..][1..] == r.1[applied + 1..];
          assert r.1[..applied + 1] == r.1[..applied] + [v];
          ApplyMigration(v, old(schema), r.1[..applied]);
          applied := applied + 1;
          current := v;
        }
        i := i + 1;
      }
      assert |r.1[applied..]| == 0 by {
        if i == |vs| {
          assert |vs[i..]| == 0;
        }
      }
      assert r.1[..applied] == r.1;
    }

    /** One successful turn of the `migrate` loop: run the migration, then record its version. */
    method ApplyMigration(v: Version, ghost base: set<SchemaObject>, ghost done: seq<Version>)
      requires Valid() && schema == base + CreatesAll(done, prefix)
      modifies this
      ensures Valid() && schema == base + CreatesAll(done + [v], prefix)
      ensures storedVersion == Some(v) && currentVersion == v
    {
      RunMigration(v);
      CreatesAllAppend(done, v, prefix);
      storedVersion := Some(v);
      currentVersion := v;
    }

    /** `init`: migrates only when the current version is below 2.0.0. */
    method Init(failing: set<Version>) returns (migrated: bool)
      requires Valid()
      modifies this
      ensures Valid()
      ensures migrated <==> Below(old(currentVersion), TargetVersion)
      ensures migrated ==>
        var r := MigrateFrom(Migrations, old(currentVersion), failing);
        && currentVersion == r.0 && schema == old(schema) + CreatesAll(r.1, prefix)
        && storedVersion == (if r.1 == [] then old(storedVersion) else Some(r.0))
      ensures !migrated ==>
        currentVersion == old(currentVersion) && schema == old(schema) && storedVersion == old(storedVersion)
    {
      migrated := Below(currentVersion, TargetVersion);
      if migrated {
        var _ := Migrate(failing);
      }
    }

    /** `tables_exist`: every one of the six tables is present; stops at the first missing one. */
    method TablesExist() returns (r: bool)
      requires Valid()
      ensures r <==> forall k :: k in TableKeys ==> Table(PrefixedName(prefix, k)) in schema
    {
      var keys := TableKeys;
      var i := 0;
      while i < |keys|
        invariant 0 <= i <= |keys|
        invariant forall j :: 0 <= j < i ==> Table(PrefixedName(prefix, keys[j])) in schema
      {
        if Table(tables[keys[i]]) !in schema {
          return false;
        }
        i := i + 1;
      }
      return true;
    }
  }
}
