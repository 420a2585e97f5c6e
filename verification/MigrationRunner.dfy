/**
 One invocation of the migration runner: read the applied versions, scan the directory, sort what
 is pending, and commit file by file while other runners do as they please in between.
 */
module MigrationRunner {
  import opened Wrappers
  import opened Migrations
  import opened Decimals

  // --- File names ---

  predicate IsUp(name: string) { |name| >= 7 && name[|name| - 7..] == ".up.sql" }

  /** The first underscore at or after i, or the length. */
  function Underscore(name: string, i: nat): (k: nat)
    requires i <= |name|
    ensures i <= k <= |name| && (k < |name| ==> name[k] == '_') && forall j | i <= j < k :: name[j] != '_'
    decreases |name| - i
  {
    if i == |name| || name[i] == '_' then i else Underscore(name, i + 1)
  }

  function ParseVersion(name: string): Option<int> {
    var k := Underscore(name, 0);
    if k == 0 || k == |name| then None else ParseInt(name[..k])
  }

  /** A migration is any name that ends like this. */
  lemma {:induction false} UpExactly(name: string)
    ensures IsUp(name) <==> exists stem: string :: name == stem + ".up.sql"
  {
    if IsUp(name) {
      assert name == name[..|name| - 7] + ".up.sql";
    }
  }

  /** The version is the number before the first underscore, which there must be. */
  lemma {:induction false} VersionExactly(name: string, v: int)
    ensures ParseVersion(name) == Some(v)
       <==> exists k :: 0 < k < |name| && name[k] == '_' && '_' !in name[..k] && ParseInt(name[..k]) == Some(v)
  {
    var u := Underscore(name, 0);
    assert forall j | 0 <= j < u :: name[..u][j] == name[j];
    if k :| 0 < k < |name| && name[k] == '_' && '_' !in name[..k] && ParseInt(name[..k]) == Some(v) {
      assert forall j | 0 <= j < k :: name[..k][j] == name[j];
      assert u == k;
    }
  }

  /** The version of a well-formed name is its number, however it is padded. */
  lemma {:induction false} VersionRoundTrip(pad: string, n: nat, rest: string)
    requires n < 0x8000_0000_0000_0000 && AllZeros(pad)
    ensures ParseVersion(pad + Decimal(n) + "_" + rest) == Some(n)
  {
    DecimalValue(pad, n);
    var s, name := pad + Decimal(n), pad + Decimal(n) + "_" + rest;
    assert forall j | 0 <= j < |s| :: name[j] == s[j] && IsDigit(s[j]);
    assert name[|s|] == '_';
    assert Underscore(name, 0) == |s|;
    assert name[..|s|] == s && IsDigit(s[0]);
  }

  // --- The plan ---

  /** The migration files among the directory's entries; None when one of them has no version. */
  function FilesOf(names: seq<string>): Option<seq<File>> {
    if names == [] then Some([])
    else
      var name := names[|names| - 1];
      match FilesOf(names[..|names| - 1])
      case None => None
      case Some(front) =>
        if !IsUp(name) then Some(front)
        else if ParseVersion(name).None? then None
        else Some(front + [File(ParseVersion(name).value, name)])
  }

  lemma {:induction false} FilesOfNone(names: seq<string>, i: nat)
    requires i <= |names| && FilesOf(names[..i]).None?
    ensures FilesOf(names).None?
    decreases |names|
  {
    if i == |names| {
      assert names[..i] == names;
    } else {
      assert names[..|names| - 1][..i] == names[..i];
      FilesOfNone(names[..|names| - 1], i);
    }
  }

  lemma {:induction false} UnseenAppend(files: seq<File>, f: File, seen: set<int>)
    ensures Unseen(files + [f], seen) == Unseen(files, seen) + if f.version in seen then [] else [f]
  {
    assert (files + [f])[..|files|] == files;
  }

  /** The rows of schema_migrations that were read, as a set. */
  method ReadApplied(rows: seq<int>) returns (applied: map<int, bool>)
    ensures applied.Keys == set v | v in rows
  {
    applied := map[];
    for i := 0 to |rows|
      invariant applied.Keys == set v | v in rows[..i]
    {
      applied := applied[rows[i] := true];
      assert rows[..i + 1] == rows[..i] + [rows[i]];
    }
    assert rows[..|rows|] == rows;
  }

  /** The files that were not read as applied; an error exactly when a migration has no version. */
  method ReadPending(names: seq<string>, applied: map<int, bool>) returns (res: Result<seq<File>>)
    ensures res.Err? <==> FilesOf(names).None?
    ensures res.Ok? ==> res.value == Unseen(FilesOf(names).value, applied.Keys)
  {
    var pending: seq<File> := [];
    for i := 0 to |names|
      invariant FilesOf(names[..i]).Some? && pending == Unseen(FilesOf(names[..i]).value, applied.Keys)
    {
      var name := names[i];
      assert names[..i + 1][..i] == names[..i];
      if !IsUp(name) {
        continue;
      }
      var version := ParseVersion(name);
      if version.None? {
        FilesOfNone(names, i + 1);
        return Err(Unavailable);
      }
      UnseenAppend(FilesOf(names[..i]).value, File(version.value, name), applied.Keys);
      if version.value !in applied {
        pending := pending + [File(version.value, name)];
      }
    }
    assert names[..|names|] == names;
    res := Ok(pending);
  }

  /** Inserts a file before the first one of a later version. */
  function Place(fs: seq<File>, f: File): (r: seq<File>)
    ensures multiset(r) == multiset(fs) + multiset{f}
  {
    if fs == [] then [f]
    else if f.version < fs[0].version then [f] + fs
    else
      assert fs == [fs[0]] + fs[1..];
      [fs[0]] + Place(fs[1..], f)
  }

  lemma {:induction false} PlaceKeepsOrder(fs: seq<File>, f: File)
    requires Ascending(fs)
    ensures Ascending(Place(fs, f))
  {
    if fs != [] && f.version >= fs[0].version {
      PlaceKeepsOrder(fs[1..], f);
      var rest := Place(fs[1..], f);
      forall j | 0 <= j < |rest| ensures fs[0].version <= rest[j].version {
        assert rest[j] in multiset(rest);
        assert rest[j] == f || rest[j] in fs[1..];
      }
    }
  }

  method SortByVersion(files: seq<File>) returns (sorted: seq<File>)
    ensures Ascending(sorted) && multiset(sorted) == multiset(files)
  {
    sorted := [];
    for i := 0 to |files|
      invariant Ascending(sorted) && multiset(sorted) == multiset(files[..i])
    {
      PlaceKeepsOrder(sorted, files[i]);
      sorted := Place(sorted, files[i]);
      assert files[..i + 1] == files[..i] + [files[i]];
    }
    assert files[..|files|] == files;
  }

  // --- One invocation ---

  lemma {:induction false} RunSnoc(db: Db, steps: seq<Step>, s: Step)
    requires IsRun(db, steps) && Enabled(After(db, steps), s)
    ensures IsRun(db, steps + [s]) && After(db, steps + [s]) == Exec(After(db, steps), s)
    decreases |steps|
  {
    if steps == [] {
      assert [] + [s] == [s] && [s][1..] == [];
    } else {
      RunSnoc(Exec(db, steps[0]), steps[1..], s);
      assert (steps + [s])[1..] == steps[1..] + [s];
    }
  }

  /** The first n scripts ran and their commits were acknowledged. */
  predicate AllWell(scriptOk: nat -> bool, acked: nat -> bool, n: nat) {
    n == 0 || (AllWell(scriptOk, acked, n - 1) && scriptOk(n - 1) && acked(n - 1))
  }

  lemma {:induction false} AllWellAt(scriptOk: nat -> bool, acked: nat -> bool, n: nat, i: nat)
    requires AllWell(scriptOk, acked, n) && i < n
    ensures scriptOk(i) && acked(i)
  {
    if i < n - 1 {
      AllWellAt(scriptOk, acked, n - 1, i);
    }
  }

  class Migrator {
    var db: Db
    /** The state before the invocation, and every step taken by anyone since. */
    ghost var origin: Db
    ghost var taken: seq<Step>

    constructor ()
      ensures Tracks() && db == EmptyDb && origin == EmptyDb
    {
      db, origin, taken := EmptyDb, EmptyDb, [];
    }

    ghost predicate Tracks()
      reads this
    {
      IsRun(origin, taken) && After(origin, taken) == db
    }

    method Take(s: Step)
      requires Tracks() && Enabled(db, s)
      modifies this
      ensures Tracks() && db == Exec(old(db), s) && origin == old(origin)
    {
      RunSnoc(origin, taken, s);
      db := Exec(db, s);
      taken := taken + [s];
    }

    /** Other runners take those of the offered steps that are possible. */
    method Interfere(offers: seq<Step>, r: int)
      requires Tracks()
      modifies this
      ensures Tracks() && origin == old(origin) && old(db.recorded) <= db.recorded
      ensures (r in db.runs <==> r in old(db.runs)) && (r in db.runs ==> db.runs[r] == old(db.runs[r]))
    {
      for i := 0 to |offers|
        invariant Tracks() && origin == old(origin) && old(db.recorded) <= db.recorded
        invariant (r in db.runs <==> r in old(db.runs)) && (r in db.runs ==> db.runs[r] == old(db.runs[r]))
      {
        if offers[i].runner != r && Enabled(db, offers[i]) {
          Take(offers[i]);
        }
      }
    }

    /** Waits while another runner holds the version: others go on meanwhile, until it is free or patience is at an end. */
    method Await(r: int, v: int, waits: nat -> seq<Step>, patience: nat) returns (free: bool)
      requires Tracks() && r in db.runs
      modifies this
      ensures Tracks() && origin == old(origin) && r in db.runs && db.runs[r] == old(db.runs[r])
      ensures free <==> VersionFree(db, r, v)
    {
      free := VersionFree(db, r, v);
      var i := 0;
      while !free && i < patience
        invariant Tracks() && origin == old(origin) && r in db.runs && db.runs[r] == old(db.runs[r])
        invariant free <==> VersionFree(db, r, v)
      {
        Interfere(waits(i), r);
        free := VersionFree(db, r, v);
        i := i + 1;
      }
    }

    /** One pending file: run the script, record its version, commit. */
    method ApplyFile(r: int, offers: seq<Step>, waits: nat -> seq<Step>, patience: nat, scriptOk: bool, acked: bool) returns (ok: bool)
      requires Tracks() && r in db.runs && db.runs[r].phase.Idle? && db.runs[r].done < |db.runs[r].pending|
      modifies this
      ensures Tracks() && origin == old(origin) && r in db.runs
      ensures var was, now := old(db.runs[r]), db.runs[r];
              && (now.files, now.seen, now.pending) == (was.files, was.seen, was.pending)
              && now.phase == (if ok then Idle else Ended) && (ok ==> now.done == was.done + 1)
              && (ok ==> scriptOk && acked) && (!scriptOk ==> now.done == was.done)
    {
      Take(Script(r));
      Interfere(offers, r);
      if !scriptOk {
        Take(Stop(r));
        return false;
      }
      var free := Await(r, Current(db.runs[r]).version, waits, patience);
      if !free {
        Take(Stop(r));
        return false;
      }
      Take(Insert(r));
      if db.runs[r].phase.Ended? {
        return false;
      }
      Interfere(offers, r);
      Take(Commit(r, acked));
      ok := acked;
    }

    /**
     The whole invocation. Without an error everything planned is done, and then, in any run from
     an empty database, every migration of the directory is recorded.
     */
    method Migrate(r: int, rows: seq<int>, names: seq<string>,
                   offers: nat -> seq<Step>, waits: (nat, nat) -> seq<Step>, patience: nat,
                   scriptOk: nat -> bool, acked: nat -> bool) returns (err: Option<Error>)
      requires Tracks() && r !in db.runs && (set v | v in rows) <= db.recorded
      modifies this
      ensures Tracks() && origin == old(origin)
      ensures FilesOf(names).None? ==> err.Some? && db == old(db)
      ensures FilesOf(names).Some? ==>
                && r in db.runs && db.runs[r].files == FilesOf(names).value && db.runs[r].seen == (set v | v in rows)
                && (if err.None? then db.runs[r].done == |db.runs[r].pending| else db.runs[r].phase.Ended?)
                && (err.None? ==> AllWell(scriptOk, acked, |db.runs[r].pending|))
    {
      var applied := ReadApplied(rows);
      var pending := ReadPending(names, applied);
      if pending.Err? {
        return Some(Unavailable);
      }
      var sorted := SortByVersion(pending.value);
      Take(Start(r, FilesOf(names).value, applied.Keys, sorted));
      err := ApplyAll(r, |sorted|, offers, waits, patience, scriptOk, acked);
    }

    /** The pending files in turn, until one fails. */
    method ApplyAll(r: int, n: nat, offers: nat -> seq<Step>, waits: (nat, nat) -> seq<Step>, patience: nat,
                    scriptOk: nat -> bool, acked: nat -> bool) returns (err: Option<Error>)
      requires Tracks() && r in db.runs && db.runs[r].phase.Idle? && db.runs[r].done == 0 && n == |db.runs[r].pending|
      modifies this
      ensures Tracks() && origin == old(origin) && r in db.runs
      ensures var was, now := old(db.runs[r]), db.runs[r];
              && (now.files, now.seen, now.pending) == (was.files, was.seen, was.pending)
              && (if err.None? then now.done == n && AllWell(scriptOk, acked, n) else now.phase.Ended?)
    {
      for i := 0 to n
        invariant Tracks() && origin == old(origin) && r in db.runs
        invariant db.runs[r] == old(db.runs[r]).(done := i) && AllWell(scriptOk, acked, i)
      {
        var ok := ApplyFile(r, offers(i), (k: nat) => waits(i, k), patience, scriptOk(i), acked(i));
        if !ok {
          return Some(Unavailable);
        }
      }
      err := None;
    }
  }

  /** What a successful invocation means: every migration of the directory is recorded. */
  lemma {:induction false} SuccessRecordsDirectory(db: Db, r: int, names: seq<string>, i: nat)
    requires Reachable(db) && r in db.runs && FilesOf(names) == Some(db.runs[r].files)
    requires db.runs[r].done == |db.runs[r].pending| && i < |names| && |names[i]| >= 7 && names[i][|names[i]| - 7..] == ".up.sql"
    ensures exists k, v :: 0 < k < |names[i]| && names[i][k] == '_' && '_' !in names[i][..k]
                           && ParseInt(names[i][..k]) == Some(v) && v in db.recorded
  {
    FileOfName(names, i);
    CompletedRunRecordsAll(db, r, File(ParseVersion(names[i]).value, names[i]));
    VersionExactly(names[i], ParseVersion(names[i]).value);
  }

  lemma {:induction false} FileOfName(names: seq<string>, i: nat)
    requires i < |names| && IsUp(names[i]) && FilesOf(names).Some?
    ensures ParseVersion(names[i]).Some? && File(ParseVersion(names[i]).value, names[i]) in FilesOf(names).value
  {
    if i < |names| - 1 {
      FileOfName(names[..|names| - 1], i);
    }
  }
}
