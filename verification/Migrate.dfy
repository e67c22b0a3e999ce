/** The migration runner: which files take effect, over any sequence of runs that may fail anywhere. */
module Migrate {
  import opened Basics
  import DQ = DollarQuote

  datatype Config = Config(
    seedDevData: bool,
    appRolePassword: string,
    adminRolePassword: string,
    allowProdSeed: bool,
    refuseSeedInProdEnv: bool)

  /** The points of a file's transaction at which the database can fail. */
  datatype Stage = Begin | Exec(n: nat) | Record | Commit

  /**
   The outside of one run: the sorted *.up.sql names and their contents, the environment, and which
   database calls fail.
   */
  datatype World = World(
    files: seq<string>,
    contents: map<string, string>,
    production: bool,
    tableFails: bool,
    lookupFails: set<string>,
    faults: set<(string, Stage)>)

  datatype Error =
    | TableError
    | NoFiles
    | SeedRefused
    | LookupError
    | ReadError
    | ApplyError
    | PasswordsMissing
    | NoSeedFiles

  datatype Reason = SeedDisabled | AlreadyApplied

  datatype Skip = Skip(version: string, reason: Reason)

  datatype Report = Report(applied: seq<string>, skipped: seq<Skip>, error: Option<Error>)

  /** A migration file is one statement, the role credentials are two. */
  datatype Part = Body | AlterApp | AlterAdmin

  datatype Statement = Statement(version: string, part: Part, sql: string)

  /** schema_migrations, and the statements that took effect, in order. */
  datatype Db = Db(recorded: set<string>, effects: seq<Statement>)

  /** Before the first run. */
  const EMPTY := Db({}, [])

  const NOTHING := Report([], [], None)

  function Stopped(out: Report, e: Error): Report {
    out.(error := Some(e))
  }

  predicate IsSeedFile(version: string) {
    DQ.Contains(version, "_seed_data.up.sql")
  }

  predicate IsRoleCredentialsFile(version: string) {
    DQ.Contains(version, "_role_credentials.up.sql")
  }

  predicate SeedGuarded(cfg: Config, w: World) {
    cfg.refuseSeedInProdEnv && w.production && !cfg.allowProdSeed
  }

  predicate LacksPasswords(version: string, cfg: Config) {
    IsRoleCredentialsFile(version) && (cfg.appRolePassword == "" || cfg.adminRolePassword == "")
  }

  // ---- one file in one transaction ----

  function AlterAppRole(version: string, cfg: Config): Statement {
    Statement(version, AlterApp, "ALTER ROLE gatstogo_app WITH PASSWORD " + DQ.Quoted(cfg.appRolePassword))
  }

  function AlterAdminRole(version: string, cfg: Config): Statement {
    Statement(version, AlterAdmin, "ALTER ROLE gatstogo_admin WITH PASSWORD " + DQ.Quoted(cfg.adminRolePassword))
  }

  /** What a file has the database execute; nothing when it cannot be read. */
  function Statements(version: string, cfg: Config, w: World): seq<Statement> {
    if IsRoleCredentialsFile(version) then [AlterAppRole(version, cfg), AlterAdminRole(version, cfg)]
    else if version in w.contents then [Statement(version, Body, w.contents[version])]
    else []
  }

  /** Inside the transaction: the first n statements executed one after another, and whether all went through. */
  function Ran(db: Db, version: string, sts: seq<Statement>, w: World, n: nat): (Db, bool)
    requires n <= |sts|
  {
    if n == 0 then (db, true)
    else
      var (before, ok) := Ran(db, version, sts, w, n - 1);
      if !ok then (before, false)
      else (before.(effects := before.effects + [sts[n - 1]]), (version, Exec(n - 1)) !in w.faults)
  }

  /** The state a file's transaction has reached inside when it commits or fails. */
  function Worked(db: Db, version: string, cfg: Config, w: World): (Db, Option<Error>) {
    if (version, Begin) in w.faults then (db, Some(ApplyError))
    else if LacksPasswords(version, cfg) then (db, Some(PasswordsMissing))
    else if !IsRoleCredentialsFile(version) && version !in w.contents then (db, Some(ReadError))
    else
      var sts := Statements(version, cfg, w);
      var (ran, ok) := Ran(db, version, sts, w, |sts|);
      if !ok || version in db.recorded then (ran, Some(ApplyError))
      else
        var inserted := ran.(recorded := ran.recorded + {version});
        (inserted, if (version, Record) in w.faults || (version, Commit) in w.faults then Some(ApplyError) else None)
  }

  /** The state it leaves: the transaction's own when it commits, else the one it began in. */
  function AppliedOne(db: Db, version: string, cfg: Config, w: World): (Db, Option<Error>) {
    var (worked, error) := Worked(db, version, cfg, w);
    (if error.Some? then db else worked, error)
  }

  lemma {:induction false} RanAll(db: Db, version: string, sts: seq<Statement>, w: World, n: nat)
    requires n <= |sts|
    ensures var (ran, ok) := Ran(db, version, sts, w, n);
      && ran.recorded == db.recorded
      && (ok ==> ran.effects == db.effects + sts[..n])
      && (ok <==> forall i: nat :: i < n ==> (version, Exec(i)) !in w.faults)
  {
    if n > 0 {
      RanAll(db, version, sts, w, n - 1);
      assert sts[..n] == sts[..n - 1] + [sts[n - 1]];
    }
  }

  /** Nothing stands in the way of the file's transaction. */
  predicate GoesThrough(db: Db, version: string, cfg: Config, w: World) {
    && !LacksPasswords(version, cfg) && version !in db.recorded
    && (IsRoleCredentialsFile(version) || version in w.contents)
    && (version, Begin) !in w.faults && (version, Record) !in w.faults && (version, Commit) !in w.faults
    && forall i: nat :: i < |Statements(version, cfg, w)| ==> (version, Exec(i)) !in w.faults
  }

  /** All or nothing: every statement with the record, or no trace, whichever step failed. */
  lemma AllOrNothing(db: Db, version: string, cfg: Config, w: World)
    ensures var (after, error) := AppliedOne(db, version, cfg, w);
      && (error.None? <==> GoesThrough(db, version, cfg, w))
      && after == if error.None? then Db(db.recorded + {version}, db.effects + Statements(version, cfg, w)) else db
  {
    var sts := Statements(version, cfg, w);
    RanAll(db, version, sts, w, |sts|);
    assert sts[..|sts|] == sts;
  }

  /** The rollback is needed: when the second role's statement fails, the first has been executed. */
  lemma SecondStatementFails(db: Db, version: string, cfg: Config, w: World)
    requires IsRoleCredentialsFile(version) && !LacksPasswords(version, cfg) && (version, Begin) !in w.faults
    requires (version, Exec(0)) !in w.faults && (version, Exec(1)) in w.faults
    ensures AlterAppRole(version, cfg) in Worked(db, version, cfg, w).0.effects
    ensures AppliedOne(db, version, cfg, w) == (db, Some(ApplyError))
  {
    var sts := Statements(version, cfg, w);
    assert Ran(db, version, sts, w, 1) == (db.(effects := db.effects + [sts[0]]), true);
    assert Ran(db, version, sts, w, 2) == (db.(effects := db.effects + [sts[0]] + [sts[1]]), false);
    assert (db.effects + [sts[0]] + [sts[1]])[|db.effects|] == sts[0];
  }

  const APP_ROLE := "ALTER ROLE gatstogo_app WITH PASSWORD "
  const ADMIN_ROLE := "ALTER ROLE gatstogo_admin WITH PASSWORD "

  /** The constant behind a statement's fixed part is read back as the password, and nothing follows it. */
  predicate Sets(sql: string, role: string, password: string) {
    |role| <= |sql| && sql[..|role|] == role && DQ.Read(sql[|role|..]) == Some((password, ""))
  }

  /** The password is read back shortened: it ends in a dollar sign and the tag chosen for it. */
  predicate LosesEnding(password: string) {
    DQ.EndsWith(password, "$" + DQ.Tag(DQ.TagFor(password, 0)))
  }

  /** A role credentials file sets each role's own password, exactly when its ending survives quoting. */
  lemma {:induction false} PasswordsSet(version: string, cfg: Config, w: World)
    requires DQ.Contains(version, "_role_credentials.up.sql")
    ensures var sts := Statements(version, cfg, w);
      && |sts| == 2
      && (Sets(sts[0].sql, APP_ROLE, cfg.appRolePassword) <==> !LosesEnding(cfg.appRolePassword))
      && (Sets(sts[1].sql, ADMIN_ROLE, cfg.adminRolePassword) <==> !LosesEnding(cfg.adminRolePassword))
  {
    var app, admin := DQ.Quoted(cfg.appRolePassword), DQ.Quoted(cfg.adminRolePassword);
    DQ.RoundTrip(cfg.appRolePassword);
    DQ.RoundTrip(cfg.adminRolePassword);
    hide DQ.Read, DQ.Quoted, DQ.EndsWith;
    assert (APP_ROLE + app)[|APP_ROLE|..] == app && (ADMIN_ROLE + admin)[|ADMIN_ROLE|..] == admin;
  }

  /** It fails for want of a password exactly when one of the two is blank, and then leaves no trace. */
  lemma PasswordsRequired(db: Db, version: string, cfg: Config, w: World)
    requires DQ.Contains(version, "_role_credentials.up.sql") && (version, Begin) !in w.faults
    ensures AppliedOne(db, version, cfg, w).1 == Some(PasswordsMissing)
      <==> cfg.appRolePassword == "" || cfg.adminRolePassword == ""
    ensures cfg.appRolePassword == "" || cfg.adminRolePassword == "" ==> AppliedOne(db, version, cfg, w).0 == db
  {
    hide Ran, DQ.Quoted, DQ.Find;
  }

  /** The common end of both loops' bodies. */
  function ApplyPending(db: Db, out: Report, version: string, cfg: Config, w: World): (Db, Report) {
    if version in w.lookupFails then (db, Stopped(out, LookupError))
    else if version in db.recorded then (db, out.(skipped := out.skipped + [Skip(version, AlreadyApplied)]))
    else
      var (after, error) := AppliedOne(db, version, cfg, w);
      if error.Some? then (after, Stopped(out, error.value)) else (after, out.(applied := out.applied + [version]))
  }

  function UpFile(db: Db, out: Report, version: string, cfg: Config, w: World): (Db, Report) {
    if IsSeedFile(version) && !cfg.seedDevData then (db, out.(skipped := out.skipped + [Skip(version, SeedDisabled)]))
    else if IsSeedFile(version) && SeedGuarded(cfg, w) then (db, Stopped(out, SeedRefused))
    else ApplyPending(db, out, version, cfg, w)
  }

  function SeedFile(db: Db, out: Report, version: string, cfg: Config, w: World): (Db, Report) {
    if !IsSeedFile(version) then (db, out) else ApplyPending(db, out, version, cfg, w)
  }

  /** The first n files of a run, stopping at the first error. */
  function UpTo(db: Db, cfg: Config, w: World, n: nat): (Db, Report)
    requires n <= |w.files|
  {
    if n == 0 then (db, NOTHING)
    else
      var before := UpTo(db, cfg, w, n - 1);
      if before.1.error.Some? then before else UpFile(before.0, before.1, w.files[n - 1], cfg, w)
  }

  function SeedTo(db: Db, cfg: Config, w: World, n: nat): (Db, Report)
    requires n <= |w.files|
  {
    if n == 0 then (db, NOTHING)
    else
      var before := SeedTo(db, cfg, w, n - 1);
      if before.1.error.Some? then before else SeedFile(before.0, before.1, w.files[n - 1], cfg, w)
  }

  function UpRun(db: Db, cfg: Config, w: World): (Db, Report) {
    if w.tableFails then (db, Stopped(NOTHING, TableError))
    else if w.files == [] then (db, Stopped(NOTHING, NoFiles))
    else UpTo(db, cfg, w, |w.files|)
  }

  function SeedRun(db: Db, config: Config, w: World): (Db, Report) {
    var cfg := config.(seedDevData := true);
    if SeedGuarded(cfg, w) then (db, Stopped(NOTHING, SeedRefused))
    else if w.tableFails then (db, Stopped(NOTHING, TableError))
    else if w.files == [] then (db, Stopped(NOTHING, NoFiles))
    else
      var (after, out) := SeedTo(db, cfg, w, |w.files|);
      if out.error.None? && out.applied == [] && out.skipped == [] then (after, Stopped(out, NoSeedFiles))
      else (after, out)
  }

  class Runner {
    var recorded: set<string>
    var effects: seq<Statement>

    constructor ()
      ensures View() == Db({}, [])
    {
      recorded, effects := {}, [];
    }

    /** The database as this connection sees it: within a transaction its uncommitted work included. */
    function View(): Db
      reads this
    {
      Db(recorded, effects)
    }

    /** Executes a statement; one that fails may have done its work before it did. */
    method Execute(st: Statement, fails: bool) returns (ok: bool)
      modifies this`effects
      ensures effects == old(effects) + [st] && ok == !fails
    {
      effects := effects + [st];
      return !fails;
    }

    method Rollback(db: Db)
      modifies this
      ensures View() == db
    {
      recorded, effects := db.recorded, db.effects;
    }

    /** From BEGIN to COMMIT, leaving its work behind wherever it fails. */
    method Transaction(version: string, cfg: Config, w: World) returns (error: Option<Error>)
      modifies this
      ensures (View(), error) == Worked(old(View()), version, cfg, w)
    {
      if (version, Begin) in w.faults {
        return Some(ApplyError);
      }
      ghost var sts := Statements(version, cfg, w);
      if IsRoleCredentialsFile(version) {
        if cfg.appRolePassword == "" || cfg.adminRolePassword == "" {
          return Some(PasswordsMissing);
        }
        var ok := Execute(AlterAppRole(version, cfg), (version, Exec(0)) in w.faults);
        assert (View(), ok) == Ran(old(View()), version, sts, w, 1);
        if !ok {
          return Some(ApplyError);
        }
        ok := Execute(AlterAdminRole(version, cfg), (version, Exec(1)) in w.faults);
        assert (View(), ok) == Ran(old(View()), version, sts, w, 2);
        if !ok {
          return Some(ApplyError);
        }
      } else {
        if version !in w.contents {
          return Some(ReadError);
        }
        var ok := Execute(Statement(version, Body, w.contents[version]), (version, Exec(0)) in w.faults);
        assert (View(), ok) == Ran(old(View()), version, sts, w, 1);
        if !ok {
          return Some(ApplyError);
        }
      }
      if version in recorded {
        return Some(ApplyError);
      }
      recorded := recorded + {version};
      if (version, Record) in w.faults {
        return Some(ApplyError);
      }
      return if (version, Commit) in w.faults then Some(ApplyError) else None;
    }

    /** The transaction, rolled back unless it committed: all of the file and its record, or nothing. */
    method ApplyOne(version: string, cfg: Config, w: World) returns (error: Option<Error>)
      modifies this
      ensures (View(), error) == AppliedOne(old(View()), version, cfg, w)
      ensures error.None? <==> GoesThrough(old(View()), version, cfg, w)
      ensures error.None? ==> recorded == old(recorded) + {version}
      ensures error.None? ==> effects == old(effects) + Statements(version, cfg, w)
      ensures error.Some? ==> View() == old(View())
    {
      var began := View();
      AllOrNothing(began, version, cfg, w);
      error := Transaction(version, cfg, w);
      if error.Some? {
        Rollback(began);
      }
    }

    method Up(cfg: Config, w: World) returns (out: Report)
      modifies this
      ensures (View(), out) == UpRun(old(View()), cfg, w)
    {
      out := NOTHING;
      if w.tableFails {
        return Stopped(out, TableError);
      }
      if w.files == [] {
        return Stopped(out, NoFiles);
      }
      for i := 0 to |w.files|
        invariant (View(), out) == UpTo(old(View()), cfg, w, i) && out.error.None?
      {
        hide IsSeedFile, SeedGuarded, Worked, Statements, GoesThrough, AppliedOne;
        UpStops(old(View()), cfg, w, i + 1);
        var version := w.files[i];
        assert UpTo(old(View()), cfg, w, i + 1) == UpFile(View(), out, version, cfg, w);
        var seed := IsSeedFile(version);
        if seed && !cfg.seedDevData {
          out := out.(skipped := out.skipped + [Skip(version, SeedDisabled)]);
          continue;
        }
        if seed && SeedGuarded(cfg, w) {
          return Stopped(out, SeedRefused);
        }
        if version in w.lookupFails {
          return Stopped(out, LookupError);
        }
        if version in recorded {
          out := out.(skipped := out.skipped + [Skip(version, AlreadyApplied)]);
          continue;
        }
        var error := ApplyOne(version, cfg, w);
        if error.Some? {
          return Stopped(out, error.value);
        }
        out := out.(applied := out.applied + [version]);
      }
    }

    method Seed(config: Config, w: World) returns (out: Report)
      modifies this
      ensures (View(), out) == SeedRun(old(View()), config, w)
    {
      out := NOTHING;
      var cfg := config.(seedDevData := true);
      if SeedGuarded(cfg, w) {
        return Stopped(out, SeedRefused);
      }
      if w.tableFails {
        return Stopped(out, TableError);
      }
      if w.files == [] {
        return Stopped(out, NoFiles);
      }
      for i := 0 to |w.files|
        invariant (View(), out) == SeedTo(old(View()), cfg, w, i) && out.error.None?
      {
        hide Worked, Statements, GoesThrough, AppliedOne;
        SeedStops(old(View()), cfg, w, i + 1);
        var version := w.files[i];
        if !IsSeedFile(version) {
          continue;
        }
        if version in w.lookupFails {
          return Stopped(out, LookupError);
        }
        if version in recorded {
          out := out.(skipped := out.skipped + [Skip(version, AlreadyApplied)]);
          continue;
        }
        var error := ApplyOne(version, cfg, w);
        if error.Some? {
          return Stopped(out, error.value);
        }
        out := out.(applied := out.applied + [version]);
      }
      if |out.applied| == 0 && |out.skipped| == 0 {
        out := Stopped(out, NoSeedFiles);
      }
    }
  }

  /** An error ends the run: the files after it are not looked at. */
  lemma {:induction false} UpStops(db: Db, cfg: Config, w: World, n: nat)
    requires n <= |w.files|
    ensures UpTo(db, cfg, w, n).1.error.Some? ==> UpTo(db, cfg, w, |w.files|) == UpTo(db, cfg, w, n)
    decreases |w.files| - n
  {
    hide UpFile;
    if n < |w.files| {
      UpStops(db, cfg, w, n + 1);
    }
  }

  lemma {:induction false} SeedStops(db: Db, cfg: Config, w: World, n: nat)
    requires n <= |w.files|
    ensures SeedTo(db, cfg, w, n).1.error.Some? ==> SeedTo(db, cfg, w, |w.files|) == SeedTo(db, cfg, w, n)
    decreases |w.files| - n
  {
    hide SeedFile;
    if n < |w.files| {
      SeedStops(db, cfg, w, n + 1);
    }
  }

  // ---- over any sequence of runs ----

  ghost predicate NoRepeats(xs: seq<string>) {
    forall i, j :: 0 <= i < j < |xs| ==> xs[i] != xs[j]
  }

  predicate HasPart(version: string, part: Part) {
    if IsRoleCredentialsFile(version) then part != Body else part == Body
  }

  /** This part of the file took effect. */
  ghost predicate TookEffect(effects: seq<Statement>, version: string, part: Part) {
    exists i :: 0 <= i < |effects| && effects[i].version == version && effects[i].part == part
  }

  /** No statement took effect twice. */
  ghost predicate EffectsOnce(effects: seq<Statement>) {
    forall i, j :: 0 <= i < j < |effects| ==>
      effects[i].version != effects[j].version || effects[i].part != effects[j].part
  }

  /** A file is recorded exactly when it took effect, as a whole, and none took effect twice. */
  ghost predicate Consistent(db: Db) {
    && EffectsOnce(db.effects)
    && forall v, part :: TookEffect(db.effects, v, part) <==> v in db.recorded && HasPart(v, part)
  }

  lemma StatementsWhole(version: string, cfg: Config, w: World)
    requires IsRoleCredentialsFile(version) || version in w.contents
    ensures var sts := Statements(version, cfg, w);
      && EffectsOnce(sts) && (forall i :: 0 <= i < |sts| ==> sts[i].version == version)
      && forall part :: HasPart(version, part) <==> TookEffect(sts, version, part)
  {
    var sts := Statements(version, cfg, w);
    assert sts[0].version == version && sts[0].part == (if IsRoleCredentialsFile(version) then AlterApp else Body);
    if IsRoleCredentialsFile(version) {
      assert sts[1].version == version && sts[1].part == AlterAdmin;
    }
  }

  lemma TookEffectConcat(a: seq<Statement>, b: seq<Statement>, v: string, part: Part)
    ensures TookEffect(a + b, v, part) <==> TookEffect(a, v, part) || TookEffect(b, v, part)
  {
    if TookEffect(a, v, part) {
      var i :| 0 <= i < |a| && a[i].version == v && a[i].part == part;
      assert (a + b)[i] == a[i];
    }
    if TookEffect(b, v, part) {
      var i :| 0 <= i < |b| && b[i].version == v && b[i].part == part;
      assert (a + b)[|a| + i] == b[i];
    }
  }

  /** A whole file's statements are added for a version not recorded yet. */
  lemma WholeFileKeeps(db: Db, version: string, cfg: Config, w: World)
    requires Consistent(db) && version !in db.recorded && (IsRoleCredentialsFile(version) || version in w.contents)
    ensures Consistent(Db(db.recorded + {version}, db.effects + Statements(version, cfg, w)))
  {
    var sts := Statements(version, cfg, w);
    StatementsWhole(version, cfg, w);
    hide Statements, HasPart, IsRoleCredentialsFile;
    forall v, part
      ensures TookEffect(db.effects + sts, v, part) <==> v in db.recorded + {version} && HasPart(v, part)
    {
      TookEffectConcat(db.effects, sts, v, part);
    }
    forall i, j | 0 <= i < |db.effects| && 0 <= j < |sts| ensures db.effects[i].version != sts[j].version {
      assert TookEffect(db.effects, db.effects[i].version, db.effects[i].part);
    }
  }

  lemma PendingKeeps(db: Db, out: Report, version: string, cfg: Config, w: World)
    requires Consistent(db)
    ensures Consistent(ApplyPending(db, out, version, cfg, w).0)
    ensures db.effects <= ApplyPending(db, out, version, cfg, w).0.effects
  {
    AllOrNothing(db, version, cfg, w);
    if GoesThrough(db, version, cfg, w) {
      WholeFileKeeps(db, version, cfg, w);
    }
    hide AppliedOne, Consistent, Statements;
  }

  lemma {:induction false} UpToKeeps(db: Db, cfg: Config, w: World, n: nat)
    requires Consistent(db) && n <= |w.files|
    ensures Consistent(UpTo(db, cfg, w, n).0) && db.effects <= UpTo(db, cfg, w, n).0.effects
  {
    if n > 0 {
      hide ApplyPending, Consistent;
      var before := UpTo(db, cfg, w, n - 1);
      UpToKeeps(db, cfg, w, n - 1);
      PendingKeeps(before.0, before.1, w.files[n - 1], cfg, w);
    }
  }

  lemma {:induction false} SeedToKeeps(db: Db, cfg: Config, w: World, n: nat)
    requires Consistent(db) && n <= |w.files|
    ensures Consistent(SeedTo(db, cfg, w, n).0) && db.effects <= SeedTo(db, cfg, w, n).0.effects
  {
    if n > 0 {
      hide ApplyPending, Consistent;
      var before := SeedTo(db, cfg, w, n - 1);
      SeedToKeeps(db, cfg, w, n - 1);
      PendingKeeps(before.0, before.1, w.files[n - 1], cfg, w);
    }
  }

  datatype Command = UpCommand(cfg: Config, w: World) | SeedCommand(cfg: Config, w: World)

  function Execute(db: Db, c: Command): (Db, Report) {
    match c
    case UpCommand(cfg, w) => UpRun(db, cfg, w)
    case SeedCommand(cfg, w) => SeedRun(db, cfg, w)
  }

  function ExecuteAll(db: Db, cs: seq<Command>): Db {
    if cs == [] then db else Execute(ExecuteAll(db, cs[..|cs| - 1]), cs[|cs| - 1]).0
  }

  /**
   Whatever runs came before and wherever they failed: recorded means took effect, once; and effects
   are never undone.
   */
  lemma {:induction false} AlwaysConsistent(db: Db, cs: seq<Command>)
    requires Consistent(db)
    ensures Consistent(ExecuteAll(db, cs)) && db.effects <= ExecuteAll(db, cs).effects
  {
    if cs != [] {
      hide Consistent, UpTo, SeedTo;
      var init, c := cs[..|cs| - 1], cs[|cs| - 1];
      AlwaysConsistent(db, init);
      var before := ExecuteAll(db, init);
      UpToKeeps(before, c.cfg, c.w, |c.w.files|);
      SeedToKeeps(before, c.cfg.(seedDevData := true), c.w, |c.w.files|);
    }
  }

  /** So from an empty database on, in every state that runs can reach. */
  lemma ReachableConsistent(earlier: seq<Command>, later: seq<Command>)
    ensures Consistent(ExecuteAll(EMPTY, earlier)) && Consistent(ExecuteAll(EMPTY, earlier + later))
    ensures ExecuteAll(EMPTY, earlier).effects <= ExecuteAll(EMPTY, earlier + later).effects
  {
    assert Consistent(EMPTY);
    AlwaysConsistent(EMPTY, earlier);
    AlwaysConsistent(ExecuteAll(EMPTY, earlier), later);
    ExecuteAllConcat(EMPTY, earlier, later);
  }

  lemma {:induction false} ExecuteAllConcat(db: Db, earlier: seq<Command>, later: seq<Command>)
    ensures ExecuteAll(db, earlier + later) == ExecuteAll(ExecuteAll(db, earlier), later)
  {
    if later == [] {
      assert earlier + later == earlier;
    } else {
      var n := |later| - 1;
      ExecuteAllConcat(db, earlier, later[..n]);
      assert (earlier + later)[..|earlier| + n] == earlier + later[..n];
    }
  }

  // ---- seeding in production ----

  predicate SeedRefusal(cfg: Config, w: World) {
    cfg.refuseSeedInProdEnv && w.production && !cfg.allowProdSeed
  }

  lemma {:induction false} UpToRefusal(db: Db, cfg: Config, w: World, n: nat)
    requires n <= |w.files|
    ensures var out := UpTo(db, cfg, w, n).1;
      && (out.error == Some(SeedRefused) ==> SeedRefusal(cfg, w) && cfg.seedDevData)
      && (SeedRefusal(cfg, w) ==> forall v :: v in out.applied ==> !DQ.Contains(v, "_seed_data.up.sql"))
  {
    if n > 0 {
      hide AppliedOne;
      UpToRefusal(db, cfg, w, n - 1);
      var before, v := UpTo(db, cfg, w, n - 1), w.files[n - 1];
      if before.1.error.None? {
        PendingReport(before.0, before.1, v, cfg, w);
      }
    }
  }

  lemma PendingReport(db: Db, out: Report, v: string, cfg: Config, w: World)
    requires out.error.None?
    ensures var after := ApplyPending(db, out, v, cfg, w).1;
      after.error != Some(SeedRefused) && (after.applied == out.applied || after.applied == out.applied + [v])
  {
    hide Ran, Statements;
  }

  lemma {:induction false} SeedToRefusal(db: Db, cfg: Config, w: World, n: nat)
    requires n <= |w.files|
    ensures SeedTo(db, cfg, w, n).1.error != Some(SeedRefused)
  {
    if n > 0 {
      hide AppliedOne;
      SeedToRefusal(db, cfg, w, n - 1);
      var before, v := SeedTo(db, cfg, w, n - 1), w.files[n - 1];
      if before.1.error.None? {
        PendingReport(before.0, before.1, v, cfg, w);
      }
    }
  }

  /**
   Where seeding is guarded, in production and not forced, Seed does nothing and Up applies no seed file;
   anywhere else neither refuses.
   */
  lemma {:induction false} SeedingGuarded(db: Db, cfg: Config, w: World)
    ensures SeedRefusal(cfg, w) ==> SeedRun(db, cfg, w) == (db, Report([], [], Some(SeedRefused)))
    ensures SeedRefusal(cfg, w) ==>
      forall v :: v in UpRun(db, cfg, w).1.applied ==> !DQ.Contains(v, "_seed_data.up.sql")
    ensures !SeedRefusal(cfg, w) ==>
      SeedRun(db, cfg, w).1.error != Some(SeedRefused) && UpRun(db, cfg, w).1.error != Some(SeedRefused)
  {
    hide UpTo, SeedTo;
    UpToRefusal(db, cfg, w, |w.files|);
    SeedToRefusal(db, cfg.(seedDevData := true), w, |w.files|);
  }

  // ---- what a run that succeeds has done ----

  /** A file that Up with this configuration is to apply. */
  predicate Wanted(version: string, cfg: Config) {
    !DQ.Contains(version, "_seed_data.up.sql") || cfg.seedDevData
  }

  /** The wanted files that are not recorded, in order. */
  function ToApply(files: seq<string>, n: nat, recorded: set<string>, cfg: Config): seq<string>
    requires n <= |files|
  {
    if n == 0 then []
    else
      var v := files[n - 1];
      ToApply(files, n - 1, recorded, cfg) + (if Wanted(v, cfg) && v !in recorded then [v] else [])
  }

  /** The others, in order, each with its reason. */
  function ToSkip(files: seq<string>, n: nat, recorded: set<string>, cfg: Config): seq<Skip>
    requires n <= |files|
  {
    if n == 0 then []
    else
      var v := files[n - 1];
      ToSkip(files, n - 1, recorded, cfg)
      + (if !Wanted(v, cfg) then [Skip(v, SeedDisabled)] else if v in recorded then [Skip(v, AlreadyApplied)] else [])
  }

  lemma {:induction false} ToApplyHolds(files: seq<string>, n: nat, recorded: set<string>, cfg: Config, v: string)
    requires n <= |files|
    ensures v in ToApply(files, n, recorded, cfg) <==> v in files[..n] && Wanted(v, cfg) && v !in recorded
  {
    hide Wanted;
    if n > 0 {
      ToApplyHolds(files, n - 1, recorded, cfg, v);
      assert files[..n] == files[..n - 1] + [files[n - 1]];
    }
  }

  lemma {:induction false} ToSkipHolds(files: seq<string>, n: nat, recorded: set<string>, cfg: Config, v: string,
                                       reason: Reason)
    requires n <= |files|
    ensures Skip(v, reason) in ToSkip(files, n, recorded, cfg) <==>
            v in files[..n] && (if Wanted(v, cfg) then v in recorded && reason == AlreadyApplied
                                else reason == SeedDisabled)
  {
    hide Wanted;
    if n > 0 {
      ToSkipHolds(files, n - 1, recorded, cfg, v, reason);
      assert files[..n] == files[..n - 1] + [files[n - 1]];
    }
  }

  lemma {:induction false} ToApplyAndSkipCount(files: seq<string>, n: nat, recorded: set<string>, cfg: Config)
    requires n <= |files|
    ensures |ToApply(files, n, recorded, cfg)| + |ToSkip(files, n, recorded, cfg)| == n
  {
    if n > 0 {
      ToApplyAndSkipCount(files, n - 1, recorded, cfg);
    }
  }

  /** Every file is in exactly one of the two lists, once. */
  lemma Partition(files: seq<string>, recorded: set<string>, cfg: Config, v: string)
    ensures var applied, skipped := ToApply(files, |files|, recorded, cfg), ToSkip(files, |files|, recorded, cfg);
      && |applied| + |skipped| == |files|
      && (v in files <==> (v in applied || Skip(v, SeedDisabled) in skipped || Skip(v, AlreadyApplied) in skipped))
      && !(v in applied && Skip(v, SeedDisabled) in skipped) && !(v in applied && Skip(v, AlreadyApplied) in skipped)
      && !(Skip(v, SeedDisabled) in skipped && Skip(v, AlreadyApplied) in skipped)
  {
    assert files[..|files|] == files;
    ToApplyAndSkipCount(files, |files|, recorded, cfg);
    ToApplyHolds(files, |files|, recorded, cfg, v);
    ToSkipHolds(files, |files|, recorded, cfg, v, SeedDisabled);
    ToSkipHolds(files, |files|, recorded, cfg, v, AlreadyApplied);
  }

  ghost function Elements(xs: seq<string>): set<string> {
    set v | v in xs
  }

  lemma ElementsSnoc(xs: seq<string>, x: string)
    ensures Elements(xs + [x]) == Elements(xs) + {x}
  {
  }

  /** The statements of several files, in order. */
  function AllStatements(versions: seq<string>, cfg: Config, w: World): seq<Statement> {
    if versions == [] then []
    else AllStatements(versions[..|versions| - 1], cfg, w) + Statements(versions[|versions| - 1], cfg, w)
  }

  lemma AllStatementsSnoc(versions: seq<string>, v: string, cfg: Config, w: World)
    ensures AllStatements(versions + [v], cfg, w) == AllStatements(versions, cfg, w) + Statements(v, cfg, w)
  {
    assert (versions + [v])[..|versions|] == versions;
  }

  /** The database after the listed files were applied. */
  ghost function Applied(db: Db, versions: seq<string>, cfg: Config, w: World): Db {
    Db(db.recorded + Elements(versions), db.effects + AllStatements(versions, cfg, w))
  }

  lemma AppliedSnoc(db: Db, versions: seq<string>, v: string, cfg: Config, w: World)
    ensures var before := Applied(db, versions, cfg, w);
      Applied(db, versions + [v], cfg, w) == Db(before.recorded + {v}, before.effects + Statements(v, cfg, w))
  {
    hide AllStatements, Statements, Elements;
    ElementsSnoc(versions, v);
    AllStatementsSnoc(versions, v, cfg, w);
    SumsAssociate(db.recorded, Elements(versions), {v}, db.effects, AllStatements(versions, cfg, w),
                  Statements(v, cfg, w));
  }

  lemma SumsAssociate<A, B>(a: set<A>, b: set<A>, c: set<A>, x: seq<B>, y: seq<B>, z: seq<B>)
    ensures a + (b + c) == a + b + c && x + (y + z) == x + y + z
  {
  }

  /** The first n files were applied or skipped by the state before the whole run. */
  ghost predicate UpExactly(db: Db, cfg: Config, w: World, n: nat, after: Db, out: Report)
    requires n <= |w.files|
  {
    && out == Report(ToApply(w.files, n, db.recorded, cfg), ToSkip(w.files, n, db.recorded, cfg), None)
    && after == Applied(db, out.applied, cfg, w)
  }

  /** One file of a run that goes on. */
  lemma UpFileExact(db: Db, cfg: Config, w: World, n: nat, before: Db, out: Report)
    requires n < |w.files| && NoRepeats(w.files) && UpExactly(db, cfg, w, n, before, out)
    requires UpFile(before, out, w.files[n], cfg, w).1.error.None?
    ensures var next := UpFile(before, out, w.files[n], cfg, w); UpExactly(db, cfg, w, n + 1, next.0, next.1)
  {
    hide AppliedOne, AllStatements, Statements, GoesThrough, DQ.Find;
    var v := w.files[n];
    ToApplyHolds(w.files, n, db.recorded, cfg, v);
    assert v !in w.files[..n];
    assert v in before.recorded <==> v in db.recorded;
    hide Applied, Elements, ToApply, ToSkip, ApplyPending;
    AppliedSnoc(db, out.applied, v, cfg, w);
    if Wanted(v, cfg) {
      PendingOutcome(before, out, v, cfg, w);
    }
    NextToApply(w.files, n, db.recorded, cfg);
  }

  lemma PendingOutcome(db: Db, out: Report, v: string, cfg: Config, w: World)
    requires ApplyPending(db, out, v, cfg, w).1.error.None? && out.error.None?
    ensures ApplyPending(db, out, v, cfg, w)
         == if v in db.recorded then (db, out.(skipped := out.skipped + [Skip(v, AlreadyApplied)]))
            else (Db(db.recorded + {v}, db.effects + Statements(v, cfg, w)), out.(applied := out.applied + [v]))
  {
    hide Worked, Statements, GoesThrough;
    AllOrNothing(db, v, cfg, w);
  }

  lemma NextToApply(files: seq<string>, n: nat, recorded: set<string>, cfg: Config)
    requires n < |files|
    ensures var v := files[n];
      && ToApply(files, n + 1, recorded, cfg)
         == ToApply(files, n, recorded, cfg) + (if Wanted(v, cfg) && v !in recorded then [v] else [])
      && ToSkip(files, n + 1, recorded, cfg)
         == ToSkip(files, n, recorded, cfg)
            + (if !Wanted(v, cfg) then [Skip(v, SeedDisabled)]
               else if v in recorded then [Skip(v, AlreadyApplied)] else [])
  {
  }

  lemma NothingYet(db: Db, cfg: Config, w: World)
    ensures UpExactly(db, cfg, w, 0, db, NOTHING)
  {
    assert Elements([]) == {} && AllStatements([], cfg, w) == [];
  }

  lemma {:induction false} UpToExact(db: Db, cfg: Config, w: World, n: nat)
    requires n <= |w.files| && NoRepeats(w.files) && UpTo(db, cfg, w, n).1.error.None?
    ensures UpExactly(db, cfg, w, n, UpTo(db, cfg, w, n).0, UpTo(db, cfg, w, n).1)
  {
    hide UpFile, NoRepeats, UpExactly;
    if n == 0 {
      NothingYet(db, cfg, w);
    } else {
      var before := UpTo(db, cfg, w, n - 1);
      UpToExact(db, cfg, w, n - 1);
      UpFileExact(db, cfg, w, n - 1, before.0, before.1);
    }
  }

  /** An Up that succeeds applies exactly the wanted files that were not recorded, in order, and skips the rest. */
  lemma UpExact(db: Db, cfg: Config, w: World)
    requires NoRepeats(w.files) && UpRun(db, cfg, w).1.error.None?
    ensures var (after, out) := UpRun(db, cfg, w);
      && out == Report(ToApply(w.files, |w.files|, db.recorded, cfg),
                       ToSkip(w.files, |w.files|, db.recorded, cfg), None)
      && after == Applied(db, out.applied, cfg, w)
  {
    UpToExact(db, cfg, w, |w.files|);
  }

  /** Nothing stops a run at this file: it may be looked up, and is recorded already or goes through. */
  predicate Clear(db: Db, v: string, cfg: Config, w: World) {
    v !in w.lookupFails && (v in db.recorded || GoesThrough(db, v, cfg, w))
  }

  lemma PendingClear(db: Db, out: Report, v: string, cfg: Config, w: World)
    requires out.error.None?
    ensures ApplyPending(db, out, v, cfg, w).1.error.None? <==> Clear(db, v, cfg, w)
  {
    hide Worked, GoesThrough;
    AllOrNothing(db, v, cfg, w);
  }

  lemma ClearLater(db: Db, later: Db, v: string, cfg: Config, w: World)
    requires v in db.recorded <==> v in later.recorded
    ensures Clear(db, v, cfg, w) == Clear(later, v, cfg, w)
  {
    hide Statements, LacksPasswords, IsRoleCredentialsFile;
  }

  /** What Up needs of a file it is to apply. */
  predicate UpClear(db: Db, v: string, cfg: Config, w: World) {
    Wanted(v, cfg) ==> (IsSeedFile(v) ==> !SeedGuarded(cfg, w)) && Clear(db, v, cfg, w)
  }

  lemma {:induction false} UpToSucceeds(db: Db, cfg: Config, w: World, n: nat)
    requires n <= |w.files| && NoRepeats(w.files)
    ensures UpTo(db, cfg, w, n).1.error.None? <==> forall i :: 0 <= i < n ==> UpClear(db, w.files[i], cfg, w)
  {
    hide Clear, NoRepeats, UpTo;
    if n > 0 {
      UpToSucceeds(db, cfg, w, n - 1);
      NextSucceeds(db, cfg, w, n - 1);
    } else {
      NothingDone(db, cfg, w);
    }
  }

  lemma NothingDone(db: Db, cfg: Config, w: World)
    ensures UpTo(db, cfg, w, 0).1.error.None?
  {
  }

  lemma {:induction false} NextSucceeds(db: Db, cfg: Config, w: World, n: nat)
    requires n < |w.files| && NoRepeats(w.files)
    ensures UpTo(db, cfg, w, n + 1).1.error.None?
      <==> UpTo(db, cfg, w, n).1.error.None? && UpClear(db, w.files[n], cfg, w)
  {
    var v, before := w.files[n], UpTo(db, cfg, w, n);
    if before.1.error.None? {
      UpToExact(db, cfg, w, n);
      ToApplyHolds(w.files, n, db.recorded, cfg, v);
      assert v !in w.files[..n];
      assert v in before.0.recorded <==> v in db.recorded;
      hide Clear, ToApply, ToSkip, Applied, Elements, ApplyPending, DQ.Find;
      ClearLater(db, before.0, v, cfg, w);
      PendingClear(before.0, before.1, v, cfg, w);
    }
  }

  /** Up succeeds exactly when the table and files are there and nothing stops it at any file it is to apply. */
  lemma {:induction false} UpSucceedsExactly(db: Db, cfg: Config, w: World)
    requires NoRepeats(w.files)
    ensures UpRun(db, cfg, w).1.error.None? <==>
      && !w.tableFails && w.files != []
      && forall v :: v in w.files && (DQ.Contains(v, "_seed_data.up.sql") ==> cfg.seedDevData) ==>
           && (DQ.Contains(v, "_seed_data.up.sql") ==> !SeedRefusal(cfg, w))
           && v !in w.lookupFails && (v in db.recorded || GoesThrough(db, v, cfg, w))
  {
    hide UpTo, GoesThrough, DQ.Find;
    UpToSucceeds(db, cfg, w, |w.files|);
    if v :| v in w.files && !UpClear(db, v, cfg, w) {
      var i :| 0 <= i < |w.files| && w.files[i] == v;
    }
  }

  /** Afterwards a version is recorded if it was before or is a wanted file. */
  lemma UpRecords(db: Db, cfg: Config, w: World, v: string)
    requires NoRepeats(w.files) && UpRun(db, cfg, w).1.error.None?
    ensures v in UpRun(db, cfg, w).0.recorded <==> v in db.recorded || (v in w.files && Wanted(v, cfg))
  {
    hide UpTo, Wanted, NoRepeats, ToApply;
    UpExact(db, cfg, w);
    assert v in UpRun(db, cfg, w).0.recorded
      <==> v in db.recorded || v in ToApply(w.files, |w.files|, db.recorded, cfg);
    ToApplyHolds(w.files, |w.files|, db.recorded, cfg, v);
    assert w.files[..|w.files|] == w.files;
  }

  /** With every wanted file recorded, a run has nothing to do wherever it stops. */
  lemma {:induction false} NothingPending(db: Db, cfg: Config, w: World, n: nat)
    requires n <= |w.files| && forall i :: 0 <= i < |w.files| && Wanted(w.files[i], cfg) ==> w.files[i] in db.recorded
    ensures UpTo(db, cfg, w, n).0 == db && UpTo(db, cfg, w, n).1.applied == []
  {
    if n > 0 {
      hide IsSeedFile;
      NothingPending(db, cfg, w, n - 1);
      assert Wanted(w.files[n - 1], cfg) ==> w.files[n - 1] in db.recorded;
    }
  }

  /** After an Up that succeeded another one over the same files applies nothing, however it ends itself. */
  lemma UpTwice(db: Db, cfg: Config, w: World, again: World)
    requires NoRepeats(w.files) && again.files == w.files && UpRun(db, cfg, w).1.error.None?
    ensures var after := UpRun(db, cfg, w).0;
      UpRun(after, cfg, again).0 == after && UpRun(after, cfg, again).1.applied == []
  {
    hide UpTo, Wanted, NoRepeats;
    var after := UpRun(db, cfg, w).0;
    forall i | 0 <= i < |w.files| && Wanted(w.files[i], cfg) ensures w.files[i] in after.recorded {
      UpRecords(db, cfg, w, w.files[i]);
    }
    NothingPending(after, cfg, again, |again.files|);
  }

  /** Seed records the seed files and nothing else. */
  lemma {:induction false} SeedToRecords(db: Db, cfg: Config, w: World, n: nat, v: string)
    requires n <= |w.files| && SeedTo(db, cfg, w, n).1.error.None?
    ensures v in SeedTo(db, cfg, w, n).0.recorded <==> v in db.recorded || (v in w.files[..n] && IsSeedFile(v))
  {
    if n > 0 {
      hide IsSeedFile, Worked, Statements, GoesThrough;
      SeedToRecords(db, cfg, w, n - 1, v);
      AllOrNothing(SeedTo(db, cfg, w, n - 1).0, w.files[n - 1], cfg, w);
      assert w.files[..n] == w.files[..n - 1] + [w.files[n - 1]];
    }
  }

  /**
   Up without seeding followed by Seed records the same versions as Up with seeding, when each gets
   through; finding no seed file at all is the one error of Seed that does not matter.
   */
  lemma UpThenSeed(db: Db, cfg: Config, w0: World, w1: World, w2: World)
    requires NoRepeats(w0.files) && w1.files == w0.files && w2.files == w0.files && !cfg.seedDevData
    requires UpRun(db, cfg, w0).1.error.None? && UpRun(db, cfg.(seedDevData := true), w2).1.error.None?
    requires var error := SeedRun(UpRun(db, cfg, w0).0, cfg, w1).1.error; error.None? || error.value == NoSeedFiles
    ensures SeedRun(UpRun(db, cfg, w0).0, cfg, w1).0.recorded == UpRun(db, cfg.(seedDevData := true), w2).0.recorded
  {
    var mid, seeding := UpRun(db, cfg, w0).0, cfg.(seedDevData := true);
    assert w1.files[..|w1.files|] == w0.files;
    SeedCompleted(mid, cfg, w1);
    forall v ensures v in SeedRun(mid, cfg, w1).0.recorded <==> v in UpRun(db, seeding, w2).0.recorded {
      UpRecords(db, cfg, w0, v);
      UpRecords(db, seeding, w2, v);
      SeedToRecords(mid, seeding, w1, |w1.files|, v);
    }
  }

  lemma PendingErrors(db: Db, out: Report, v: string, cfg: Config, w: World)
    requires out.error.None?
    ensures ApplyPending(db, out, v, cfg, w).1.error != Some(NoSeedFiles)
  {
    hide Ran, Statements;
  }

  lemma {:induction false} SeedToErrors(db: Db, cfg: Config, w: World, n: nat)
    requires n <= |w.files|
    ensures SeedTo(db, cfg, w, n).1.error != Some(NoSeedFiles)
  {
    if n > 0 {
      SeedToErrors(db, cfg, w, n - 1);
      var (before, out) := SeedTo(db, cfg, w, n - 1);
      if out.error.None? {
        PendingErrors(before, out, w.files[n - 1], cfg, w);
      }
      hide ApplyPending, IsSeedFile;
    }
  }

  lemma SeedCompleted(db: Db, config: Config, w: World)
    requires var error := SeedRun(db, config, w).1.error; error.None? || error.value == NoSeedFiles
    ensures var cfg := config.(seedDevData := true);
      SeedTo(db, cfg, w, |w.files|).1.error.None? && SeedRun(db, config, w).0 == SeedTo(db, cfg, w, |w.files|).0
  {
    SeedToErrors(db, config.(seedDevData := true), w, |w.files|);
  }

  /** Seed complains of missing seed files exactly when it got through and there are none. */
  lemma {:induction false} SeedToEmpty(db: Db, cfg: Config, w: World, n: nat)
    requires n <= |w.files| && SeedTo(db, cfg, w, n).1.error.None?
    ensures var out := SeedTo(db, cfg, w, n).1;
      out.applied == [] && out.skipped == [] <==> forall i :: 0 <= i < n ==> !IsSeedFile(w.files[i])
  {
    if n > 0 {
      SeedToEmpty(db, cfg, w, n - 1);
    }
  }

  lemma {:induction false} SeedToSucceeds(db: Db, cfg: Config, w: World, n: nat)
    requires n <= |w.files| && NoRepeats(w.files)
    ensures SeedTo(db, cfg, w, n).1.error.None?
      <==> forall i :: 0 <= i < n && IsSeedFile(w.files[i]) ==> Clear(db, w.files[i], cfg, w)
  {
    hide Clear, NoRepeats, SeedTo;
    if n > 0 {
      SeedToSucceeds(db, cfg, w, n - 1);
      NextSeeds(db, cfg, w, n - 1);
    } else {
      NothingSeeded(db, cfg, w);
    }
  }

  lemma NothingSeeded(db: Db, cfg: Config, w: World)
    ensures SeedTo(db, cfg, w, 0).1.error.None?
  {
  }

  lemma {:induction false} NextSeeds(db: Db, cfg: Config, w: World, n: nat)
    requires n < |w.files| && NoRepeats(w.files)
    ensures SeedTo(db, cfg, w, n + 1).1.error.None?
      <==> SeedTo(db, cfg, w, n).1.error.None? && (IsSeedFile(w.files[n]) ==> Clear(db, w.files[n], cfg, w))
  {
    var v, before := w.files[n], SeedTo(db, cfg, w, n);
    if before.1.error.None? {
      SeedToRecords(db, cfg, w, n, v);
      assert v !in w.files[..n];
      hide Clear, ApplyPending, IsSeedFile;
      ClearLater(db, before.0, v, cfg, w);
      PendingClear(before.0, before.1, v, cfg, w);
    }
  }

  /** Seed succeeds exactly when seeding is not refused, there is a seed file, and nothing stops it at any of them. */
  lemma {:induction false} SeedSucceedsExactly(db: Db, cfg: Config, w: World)
    requires NoRepeats(w.files)
    ensures SeedRun(db, cfg, w).1.error.None? <==>
      && !SeedRefusal(cfg, w) && !w.tableFails
      && (exists v :: v in w.files && DQ.Contains(v, "_seed_data.up.sql"))
      && forall v :: v in w.files && DQ.Contains(v, "_seed_data.up.sql") ==>
           v !in w.lookupFails && (v in db.recorded || GoesThrough(db, v, cfg.(seedDevData := true), w))
  {
    hide SeedTo, GoesThrough, DQ.Find;
    var seeding, n := cfg.(seedDevData := true), |w.files|;
    SeedToSucceeds(db, seeding, w, n);
    if SeedTo(db, seeding, w, n).1.error.None? {
      SeedToEmpty(db, seeding, w, n);
    }
    if v :| v in w.files && IsSeedFile(v) && !Clear(db, v, seeding, w) {
      var i :| 0 <= i < n && w.files[i] == v;
    }
    if v :| v in w.files && IsSeedFile(v) {
      var i :| 0 <= i < n && w.files[i] == v;
    }
  }
}
