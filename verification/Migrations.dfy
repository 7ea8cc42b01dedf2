/** The migration runner: which migrations a run executes, and what it leaves in the table of applied ones. */
module Migrations {
  import SqlSplit
  import opened Sequences
  import opened Wrappers

  const RELEASED: string := "RELEASED"
  const ARCHIVED: string := "ARCHIVED"

  datatype Migration = Migration(version: int, name: string, statements: seq<string>, hash: string, state: string)
  datatype Record = Record(hash: string, state: string)
  datatype Options = Options(redundancyChecks: bool, allowRehash: bool, archivedRedundancy: bool, cleanOrphans: bool,
                             cleanOrphansMax: int)
  datatype Result = Result(applied: nat, rehashed: nat, archived: nat, orphans: nat)
  datatype Error = DuplicateVersion(version: int) | DuplicateName(name: string) | StatementFailed(name: string)

  /** The table of applied migrations, by name. */
  type Table = map<string, Record>

  // ---------- One migration ----------

  datatype Action = Skip | Restate | Rehash | Execute(replacing: bool)

  function Decide(t: Table, m: Migration, o: Options): Action
  {
    if m.name !in t then Execute(false)
    else
      var r := t[m.name];
      if !o.redundancyChecks || (!o.archivedRedundancy && r.state == ARCHIVED && m.state == ARCHIVED) then Skip
      else if r.hash == m.hash then (if r.state != m.state then Restate else Skip)
      else if o.allowRehash && r.hash == "" then Rehash
      else Execute(true)
  }

  /** The check is off, or it is off for what is archived on both sides. */
  predicate Unchecked(t: Table, m: Migration, o: Options)
  {
    m.name in t &&
    (!o.redundancyChecks || (t[m.name].state == "ARCHIVED" && m.state == "ARCHIVED" && !o.archivedRedundancy))
  }

  /** The table has no hash for it, and one may be filled in without running anything. */
  predicate OnlyRehashed(t: Table, m: Migration, o: Options)
  {
    m.name in t && !Unchecked(t, m, o) && t[m.name].hash == "" && m.hash != "" && o.allowRehash
  }

  /** New to the table, or there with another hash that is checked and cannot just be filled in. */
  predicate MustRun(t: Table, m: Migration, o: Options)
  {
    m.name !in t || (!Unchecked(t, m, o) && t[m.name].hash != m.hash && !OnlyRehashed(t, m, o))
  }

  /** What is decided about a migration, in terms of the two hashes, the two states and the options. */
  lemma DecisionMeans(t: Table, m: Migration, o: Options)
    ensures Decide(t, m, o).Execute? <==> MustRun(t, m, o)
    ensures Decide(t, m, o) == Rehash <==> OnlyRehashed(t, m, o)
    ensures Decide(t, m, o) == Execute(false) <==> m.name !in t
    ensures Decide(t, m, o) == Skip ==> m.name in t && (Unchecked(t, m, o) || t[m.name] == Record(m.hash, m.state))
    ensures Unchecked(t, m, o) ==> Decide(t, m, o) == Skip
  {
  }

  /** Whatever is done to a migration ends with its own hash and state in the table. */
  function Settle(t: Table, m: Migration, o: Options): Table
  {
    if Decide(t, m, o) == Skip then t else t[m.name := Record(m.hash, m.state)]
  }

  /** The defaults of a migration that comes without state or hash. */
  function Completed(m: Migration, digest: string -> string): Migration
  {
    m.(state := if m.state == "" then RELEASED else m.state,
       hash := if m.hash == "" then digest(Joined(m.statements)) else m.hash)
  }

  function Joined(ss: seq<string>): string
  {
    if ss == [] then "" else if |ss| == 1 then ss[0] else ss[0] + "\n" + Joined(ss[1..])
  }

  /** A migration without a state is released; one without a hash gets that of its statements, line by line. */
  lemma CompletedMeans(m: Migration, digest: string -> string)
    ensures var c := Completed(m, digest);
            && c.state == (if m.state == "" then "RELEASED" else m.state)
            && c.hash == (if m.hash == "" then digest(Joined(m.statements)) else m.hash)
            && c == m.(state := c.state, hash := c.hash)
  {
  }

  lemma {:induction false} JoinedByLines(a: seq<string>, b: seq<string>)
    requires a != [] && b != []
    ensures Joined(a + b) == Joined(a) + "\n" + Joined(b)
    ensures Joined([]) == "" && forall s: string :: Joined([s]) == s
  {
    if |a| == 1 {
      assert (a + b)[0] == a[0] && (a + b)[1..] == b;
    } else {
      JoinedByLines(a[1..], b);
      assert (a + b)[0] == a[0] && (a + b)[1..] == a[1..] + b;
    }
  }

  /** A migration runs when the database refuses none of its statements; blank ones are not sent. */
  predicate Runs(m: Migration, refused: set<string>)
  {
    forall s :: s in m.statements && SqlSplit.Trim(s) != "" ==> s !in refused
  }

  /** So it fails exactly when a statement with something other than white space in it is refused. */
  lemma RunsMeans(m: Migration, refused: set<string>)
    ensures !Runs(m, refused) <==>
              exists s :: s in m.statements && s in refused && exists k :: 0 <= k < |s| && !SqlSplit.IsSpace(s[k])
  {
    hide SqlSplit.Trim, SqlSplit.IsSpace;
    forall s: string ensures SqlSplit.Trim(s) == "" <==> forall k :: 0 <= k < |s| ==> SqlSplit.IsSpace(s[k]) {
      SqlSplit.TrimMeans(s);
    }
  }

  // ---------- A list of migrations ----------

  predicate Ordered(ms: seq<Migration>)
  {
    forall i, j :: 0 <= i < j < |ms| ==> ms[i].version <= ms[j].version
  }

  predicate Distinct(ms: seq<Migration>)
  {
    forall i, j :: 0 <= i < j < |ms| ==> ms[i].version != ms[j].version && ms[i].name != ms[j].name
  }

  function Names(ms: seq<Migration>): set<string>
  {
    set m | m in ms :: m.name
  }

  /** One after the other. */
  function SettleAll(t: Table, ms: seq<Migration>, o: Options): Table
  {
    if ms == [] then t else Settle(SettleAll(t, ms[..|ms| - 1], o), ms[|ms| - 1], o)
  }

  /** The migrations that the table as it was asks to execute. */
  function ToExecute(t: Table, ms: seq<Migration>, o: Options): seq<Migration>
  {
    if ms == [] then []
    else ToExecute(t, ms[..|ms| - 1], o) + if Decide(t, ms[|ms| - 1], o).Execute? then [ms[|ms| - 1]] else []
  }

  function CountRehashed(t: Table, ms: seq<Migration>, o: Options): nat
  {
    if ms == [] then 0 else CountRehashed(t, ms[..|ms| - 1], o) + if Decide(t, ms[|ms| - 1], o) == Rehash then 1 else 0
  }

  function CountArchived(t: Table, ms: seq<Migration>, o: Options): nat
  {
    if ms == [] then 0
    else
      var m := ms[|ms| - 1];
      CountArchived(t, ms[..|ms| - 1], o) + if Decide(t, m, o) == Execute(false) && m.state == ARCHIVED then 1 else 0
  }

  /** The entry that a migration is to have. */
  function Entry(t: Table, m: Migration, o: Options): Record
  {
    if Decide(t, m, o) == Skip then t[m.name] else Record(m.hash, m.state)
  }

  /** The table after all of them, name by name: no migration meddles with another's entry. */
  ghost predicate Settled(t: Table, s: Table, ms: seq<Migration>, o: Options)
  {
    s.Keys == t.Keys + Names(ms) &&
    (forall n :: n in t && n !in Names(ms) ==> s[n] == t[n]) &&
    (forall m :: m in ms ==> m.name in s && s[m.name] == Entry(t, m, o))
  }

  /** What the table asks of one migration does not depend on the ones before it. */
  lemma DecisionIsLocal(t: Table, s: Table, ms: seq<Migration>, m: Migration, o: Options)
    requires Settled(t, s, ms, o) && m.name !in Names(ms)
    ensures Decide(s, m, o) == Decide(t, m, o)
  {
  }

  lemma SettledStep(t: Table, s: Table, ms: seq<Migration>, m: Migration, o: Options)
    requires Settled(t, s, ms, o) && m.name !in Names(ms)
    ensures Settled(t, Settle(s, m, o), ms + [m], o)
  {
  }

  lemma NoEntryIsExecuted(t: Table, m: Migration, o: Options)
    ensures m.name !in t ==> Decide(t, m, o) == Execute(false)
  {
  }

  lemma LastIsNew(ms: seq<Migration>)
    requires Distinct(ms) && ms != []
    ensures ms[|ms| - 1].name !in Names(ms[..|ms| - 1]) && Distinct(ms[..|ms| - 1])
  {
  }

  lemma {:induction false} SettledAll(t: Table, ms: seq<Migration>, o: Options)
    requires Distinct(ms)
    ensures Settled(t, SettleAll(t, ms, o), ms, o)
  {
    hide Settled, Settle, Distinct;
    if ms == [] {
      NothingSettled(t, o);
    } else {
      var front, last := ms[..|ms| - 1], ms[|ms| - 1];
      LastIsNew(ms);
      SettledAll(t, front, o);
      SettledStep(t, SettleAll(t, front, o), front, last, o);
      assert front + [last] == ms;
    }
  }

  lemma NothingSettled(t: Table, o: Options)
    ensures Settled(t, t, [], o)
  {
  }

  // ---------- Orphans ----------

  function Orphans(t: Table, ms: seq<Migration>): set<string>
  {
    t.Keys - Names(ms)
  }

  /** Whether a run removes the entries that no migration has; a maximum overrides the switch. */
  predicate Cleans(t: Table, ms: seq<Migration>, o: Options)
  {
    if o.cleanOrphansMax != 0 then o.cleanOrphansMax < 0 || |Orphans(t, ms)| <= o.cleanOrphansMax else o.cleanOrphans
  }

  function Cleaned(t: Table, ms: seq<Migration>, o: Options): Table
  {
    if Cleans(t, ms, o) then t - Orphans(t, ms) else t
  }

  // ---------- A second run ----------

  /** A run that meets no duplicate and no refused statement leaves the table like this. */
  function Finished(t: Table, ms: seq<Migration>, o: Options): Table
  {
    Cleaned(SettleAll(t, ms, o), ms, o)
  }

  lemma SettledIsSkipped(t: Table, m: Migration, s: Table, o: Options)
    requires m.name in s && s[m.name] == Entry(t, m, o) && (Decide(t, m, o) == Skip ==> m.name in t)
    ensures Decide(s, m, o) == Skip
  {
  }

  lemma {:induction false} NothingToDo(t: Table, ms: seq<Migration>, o: Options)
    requires forall m :: m in ms ==> Decide(t, m, o) == Skip
    ensures SettleAll(t, ms, o) == t && ToExecute(t, ms, o) == [] && CountRehashed(t, ms, o) == 0 &&
            CountArchived(t, ms, o) == 0
  {
    hide Decide;
    if ms != [] {
      var front, last := ms[..|ms| - 1], ms[|ms| - 1];
      assert last in ms;
      NothingToDo(t, front, o);
    }
  }

  /**
   * A second run of the same migrations with the same options changes nothing, whatever the options: it executes,
   * rehashes and archives nothing, and leaves no orphan to delete that it would delete.
   */
  lemma SecondRunIsIdle(t: Table, ms: seq<Migration>, o: Options)
    requires Distinct(ms)
    ensures var s := Finished(t, ms, o);
            ToExecute(s, ms, o) == [] && CountRehashed(s, ms, o) == 0 && CountArchived(s, ms, o) == 0 &&
            SettleAll(s, ms, o) == s && Finished(s, ms, o) == s && (Cleans(s, ms, o) ==> Orphans(s, ms) == {})
  {
    hide Decide, SettleAll, Distinct;
    var mid, s := SettleAll(t, ms, o), Finished(t, ms, o);
    SettledAll(t, ms, o);
    forall m | m in ms ensures Decide(s, m, o) == Skip {
      assert m.name in Names(ms);
      NoEntryIsExecuted(t, m, o);
      SettledIsSkipped(t, m, s, o);
    }
    NothingToDo(s, ms, o);
    if Cleans(mid, ms, o) {
      assert Orphans(s, ms) == {};
      assert s - {} == s;
    }
  }

  predicate Ascending(ms: seq<Migration>)
  {
    forall i, j :: 0 <= i < j < |ms| ==> ms[i].version < ms[j].version
  }

  lemma LastIsLatest(ms: seq<Migration>)
    requires Ordered(ms) && Distinct(ms) && ms != []
    ensures forall m :: m in ms[..|ms| - 1] ==> m.version < ms[|ms| - 1].version
    ensures Ordered(ms[..|ms| - 1]) && Distinct(ms[..|ms| - 1])
  {
  }

  lemma AscendingAppend(es: seq<Migration>, m: Migration)
    requires Ascending(es) && forall e :: e in es ==> e.version < m.version
    ensures Ascending(es + [m])
  {
  }

  /** Exactly the migrations that are new or changed are executed. */
  lemma {:induction false} ExecutedAreTheChanged(t: Table, ms: seq<Migration>, o: Options)
    ensures forall m :: m in ToExecute(t, ms, o) <==> m in ms && Decide(t, m, o).Execute?
  {
    hide Decide;
    if ms != [] {
      var front, last := ms[..|ms| - 1], ms[|ms| - 1];
      ExecutedAreTheChanged(t, front, o);
      assert ms == front + [last];
    }
  }

  /** They are executed by strictly increasing version, so each once. */
  lemma {:induction false} ExecutedInOrder(t: Table, ms: seq<Migration>, o: Options)
    requires Ordered(ms) && Distinct(ms)
    ensures Ascending(ToExecute(t, ms, o))
  {
    hide Decide, Ordered, Distinct, Ascending;
    if ms == [] {
      AscendingEmpty();
    } else {
      var front, last := ms[..|ms| - 1], ms[|ms| - 1];
      LastIsLatest(ms);
      ExecutedInOrder(t, front, o);
      ExecutedAreTheChanged(t, front, o);
      AscendingAppend(ToExecute(t, front, o), last);
      assert ToExecute(t, front, o) + [] == ToExecute(t, front, o);
    }
  }

  lemma AscendingEmpty()
    ensures Ascending([])
  {
  }

  /** Without equal versions there is one way to sort, so a second run goes over the same list. */
  lemma {:induction false} SortedIsUnique(a: seq<Migration>, b: seq<Migration>)
    requires Ascending(a) && Ascending(b) && multiset(a) == multiset(b)
    ensures a == b
  {
    hide Ascending;
    assert |a| == |multiset(a)| == |multiset(b)| == |b|;
    if a != [] {
      var n := |a| - 1;
      LastIsGreatest(a, b);
      WithoutLast(a);
      WithoutLast(b);
      SortedIsUnique(a[..n], b[..n]);
    }
  }

  lemma WithoutLast(a: seq<Migration>)
    requires a != [] && Ascending(a)
    ensures a == a[..|a| - 1] + [a[|a| - 1]] && Ascending(a[..|a| - 1])
    ensures multiset(a[..|a| - 1]) == multiset(a) - multiset{a[|a| - 1]}
  {
  }

  lemma LastIsGreatest(a: seq<Migration>, b: seq<Migration>)
    requires Ascending(a) && Ascending(b) && multiset(a) == multiset(b) && |a| == |b| > 0
    ensures a[|a| - 1] == b[|b| - 1]
  {
    assert a[|a| - 1] in multiset(b) && b[|b| - 1] in multiset(a);
    var i :| 0 <= i < |b| && b[i] == a[|a| - 1];
    var j :| 0 <= j < |a| && a[j] == b[|b| - 1];
  }

  // ---------- The run ----------

  function CompletedAll(ms: seq<Migration>, digest: string -> string): (r: seq<Migration>)
    ensures |r| == |ms| && forall i :: 0 <= i < |ms| ==> r[i] == Completed(ms[i], digest)
  {
    seq(|ms|, i requires 0 <= i < |ms| => Completed(ms[i], digest))
  }

  /** Why a run stops at the migration `k`: after a duplicate, or at a statement that is refused. */
  ghost predicate StopsAt(t: Table, ms: seq<Migration>, k: nat, o: Options, refused: set<string>, e: Error)
    requires k < |ms|
  {
    match e
    case DuplicateVersion(v) => v == ms[k].version && exists i :: 0 <= i < k && ms[i].version == v
    case DuplicateName(n) => n == ms[k].name && exists i :: 0 <= i < k && ms[i].name == n
    case StatementFailed(n) => n == ms[k].name && Decide(t, ms[k], o).Execute? && !Runs(ms[k], refused)
  }

  /** After a run that came to its end, a second one meets nothing to stop at. */
  lemma SecondRunDoesNotStop(t: Table, ms: seq<Migration>, o: Options, refused: set<string>, k: nat, e: Error)
    requires Distinct(ms) && k < |ms|
    ensures !StopsAt(Finished(t, ms, o), ms, k, o, refused, e)
  {
    hide Decide, Finished;
    SecondRunIsIdle(t, ms, o);
    ExecutedAreTheChanged(Finished(t, ms, o), ms, o);
    assert ms[k] in ms;
  }

  method InsertByVersion(l: seq<Migration>, m: Migration) returns (r: seq<Migration>)
    requires Ordered(l)
    ensures Ordered(r) && multiset(r) == multiset(l) + multiset{m}
  {
    var i := 0;
    while i < |l| && l[i].version <= m.version
      invariant i <= |l| && forall j :: 0 <= j < i ==> l[j].version <= m.version
    {
      i := i + 1;
    }
    assert l == l[..i] + l[i..];
    InsertKeepsPairs(l[..i], m, l[i..], (a: Migration, b: Migration) => a.version <= b.version);
    r := l[..i] + [m] + l[i..];
  }

  method SortByVersion(ms: seq<Migration>) returns (sorted: seq<Migration>)
    ensures Ordered(sorted) && multiset(sorted) == multiset(ms)
  {
    hide Ordered;
    sorted := [];
    EmptyIsOrdered();
    for k := 0 to |ms|
      invariant Ordered(sorted) && multiset(sorted) == multiset(ms[..k])
    {
      sorted := InsertByVersion(sorted, ms[k]);
      assert ms[..k + 1] == ms[..k] + [ms[k]];
    }
    assert ms[..|ms|] == ms;
  }

  lemma EmptyIsOrdered()
    ensures Ordered([])
  {
  }

  class Store {
    var updates: Table
    /** The migrations whose statements were committed, in order. */
    ghost var executed: seq<Migration>
    const digest: string -> string

    constructor (digest: string -> string)
      ensures this.digest == digest && updates == map[] && executed == []
    {
      this.digest := digest;
      updates := map[];
      executed := [];
    }

    /** One migration in one transaction: all its statements and its entry, or nothing. */
    method ApplyMigration(m: Migration, replacing: bool, refused: set<string>) returns (ok: bool)
      requires replacing == (m.name in updates)
      modifies this
      ensures ok == Runs(m, refused)
      ensures ok ==> updates == old(updates)[m.name := Record(m.hash, m.state)] && executed == old(executed) + [m]
      ensures !ok ==> updates == old(updates) && executed == old(executed)
    {
      for i := 0 to |m.statements|
        invariant forall s :: s in m.statements[..i] && SqlSplit.Trim(s) != "" ==> s !in refused
      {
        if SqlSplit.Trim(m.statements[i]) != "" && m.statements[i] in refused {
          return false;
        }
      }
      updates := updates[m.name := Record(m.hash, m.state)];
      executed := executed + [m];
      return true;
    }

    /** What a run does with one migration. */
    method SettleOne(m: Migration, o: Options, refused: set<string>, tally: Result) returns (ok: bool, result: Result)
      modifies this
      ensures var a := Decide(old(updates), m, o);
              ok == (a.Execute? ==> Runs(m, refused)) &&
              (ok ==> updates == Settle(old(updates), m, o) && result == Tallied(tally, a, m) &&
                      executed == old(executed) + if a.Execute? then [m] else [])
      ensures !ok ==> updates == old(updates) && executed == old(executed) && result == tally
    {
      hide Runs;
      result := tally;
      assert executed + [] == executed;
      if m.name in updates {
        var applied := updates[m.name];
        if !o.redundancyChecks || (!o.archivedRedundancy && applied.state == ARCHIVED && m.state == ARCHIVED) {
          return true, result;
        }
        if applied.hash == m.hash {
          if applied.state != m.state {
            updates := updates[m.name := Record(m.hash, m.state)];
          }
          return true, result;
        }
        if o.allowRehash && applied.hash == "" {
          updates := updates[m.name := Record(m.hash, m.state)];
          return true, result.(rehashed := result.rehashed + 1);
        }
        ok := ApplyMigration(m, true, refused);
        if ok {
          result := result.(applied := result.applied + 1);
        }
        return;
      }
      ok := ApplyMigration(m, false, refused);
      if ok {
        if m.state == ARCHIVED {
          result := result.(archived := result.archived + 1);
        }
        result := result.(applied := result.applied + 1);
      }
    }

    /**
     * A run. `done` migrations of the sorted list were settled; without an error that is all of them, and the orphans
     * are cleaned up after them.
     */
    method ApplyMigrations(migrations: seq<Migration>, o: Options, refused: set<string>)
      returns (result: Result, error: Option<Error>, ghost sorted: seq<Migration>, ghost done: nat)
      modifies this
      ensures Ordered(sorted) && multiset(sorted) == multiset(migrations) && done <= |sorted|
      ensures var order := CompletedAll(sorted, digest);
              Distinct(order[..done]) && executed == old(executed) + ToExecute(old(updates), order[..done], o) &&
              AllRun(ToExecute(old(updates), order[..done], o), refused)
      ensures error == None ==>
                var order := CompletedAll(sorted, digest);
                done == |order| && Distinct(order) &&
                updates == Finished(old(updates), order, o) && result == Totals(old(updates), order, o)
      // what that means, migration by migration and orphan by orphan
      ensures error == None ==>
                var order, ran := CompletedAll(sorted, digest), executed[|old(executed)|..];
                RanWhatMust(old(updates), order, o, ran) && EntriesAreOwn(old(updates), updates, order, o) &&
                OrphansAreCleaned(old(updates), updates, order, o) && result.applied == |ran| &&
                result.rehashed == |Rehashes(old(updates), order, o)| &&
                result.archived == |NewArchived(old(updates), order)|
      ensures error.Some? ==>
                var order := CompletedAll(sorted, digest);
                done < |order| && updates == SettleAll(old(updates), order[..done], o) &&
                StopsAt(old(updates), order, done, o, refused, error.value)
    {
      hide Decide, Ordered, Settle, SettleAll, ToExecute, CountRehashed, CountArchived, Distinct;
      hide Runs, AllRun, Midway, Tallied, Names, Cleans, Cleaned, Orphans;
      hide RanWhatMust, EntriesAreOwn, OrphansAreCleaned, Rehashes, NewArchived;
      result := Result(0, 0, 0, 0);
      error := None;
      var list := SortByVersion(migrations);
      sorted := list;
      ghost var order := CompletedAll(list, digest);
      ghost var t, log := updates, [];
      var seen: set<int>, seenNames: set<string> := {}, {};
      var k := 0;
      done := 0;
      MidwayStart(t, o, refused);
      assert order[..0] == [] && executed == old(executed) + [];
      while k < |list|
        invariant k == done <= |list| == |order|
        invariant Midway(t, order[..k], o, refused, updates, log, seen, seenNames, result)
        invariant executed == old(executed) + log
      {
        MidwayFacts(t, order[..k], o, refused, updates, log, seen, seenNames, result);
        ghost var seen0, names0 := seen, seenNames;
        var m := Completed(list[k], digest);
        assert order[k] == m && order[..k + 1] == order[..k] + [m];
        if m.version in seen {
          SeenVersion(order, k, seen);
          error := Some(DuplicateVersion(m.version));
          return;
        }
        seen := seen + {m.version};
        if m.name in seenNames {
          SeenName(order, k);
          error := Some(DuplicateName(m.name));
          return;
        }
        seenNames := seenNames + {m.name};
        MidwayStep(t, order[..k], o, refused, updates, log, seen0, names0, result, m);
        ghost var a := Decide(updates, m, o);
        var ok;
        ok, result := SettleOne(m, o, refused, result);
        if !ok {
          error := Some(StatementFailed(m.name));
          return;
        }
        log := log + if a.Execute? then [m] else [];
        k := k + 1;
        done := k;
      }
      assert order[..k] == order;
      MidwayFacts(t, order, o, refused, updates, log, seen, seenNames, result);
      result := CleanUp(list, order, o, result);
      RunMeans(t, order, o);
      assert executed[|old(executed)|..] == log;
    }

    /** Deletes the entries that no migration has, when the options say so. */
    method CleanUp(list: seq<Migration>, ghost order: seq<Migration>, o: Options,
                   tally: Result) returns (result: Result)
      requires order == CompletedAll(list, digest) && tally.orphans == 0
      modifies this`updates
      ensures updates == Cleaned(old(updates), order, o)
      ensures result == tally.(orphans := if Cleans(old(updates), order, o) then |Orphans(old(updates), order)| else 0)
    {
      hide Names;
      result := tally;
      NamesOfCompleted(list, digest);
      if o.cleanOrphans || o.cleanOrphansMax != 0 {
        var orphaned := set n | n in updates && n !in Names(list);
        assert orphaned == Orphans(updates, order);
        var cleanup := o.cleanOrphans;
        if o.cleanOrphansMax != 0 {
          cleanup := o.cleanOrphansMax < 0 || |orphaned| <= o.cleanOrphansMax;
        }
        if !cleanup {
          return;
        }
        var count := DeleteAll(orphaned);
        result := result.(orphans := count);
      }
    }

    method DeleteAll(names: set<string>) returns (count: nat)
      modifies this`updates
      ensures updates == old(updates) - names && count == |names|
    {
      count := 0;
      var todo := names;
      ghost var gone: set<string> := {};
      assert updates == old(updates) - gone;
      while todo != {}
        invariant gone !! todo && gone + todo == names && updates == old(updates) - gone && count == |gone|
        decreases todo
      {
        var n :| n in todo;
        todo := todo - {n};
        gone := gone + {n};
        updates := updates - {n};
        count := count + 1;
      }
      assert gone == names;
    }
  }

  // ---------- What a finished run means ----------

  /** Run is what must be, and nothing else. */
  ghost predicate RanWhatMust(t: Table, ms: seq<Migration>, o: Options, ran: seq<Migration>)
  {
    forall m :: m in ran <==> m in ms && MustRun(t, m, o)
  }

  /** Every checked migration ends with its own hash and state, and the others keep their entry. */
  ghost predicate EntriesAreOwn(t: Table, s: Table, ms: seq<Migration>, o: Options)
  {
    forall m :: m in ms ==>
      m.name in s && s[m.name] == if Unchecked(t, m, o) then t[m.name] else Record(m.hash, m.state)
  }

  /** The entries that no migration has go when there may be so many of them, and otherwise stay as they are. */
  ghost predicate OrphansAreCleaned(t: Table, s: Table, ms: seq<Migration>, o: Options)
  {
    var orphans := t.Keys - set m | m in ms :: m.name;
    var clean := if o.cleanOrphansMax == 0 then o.cleanOrphans
                 else o.cleanOrphansMax < 0 || |orphans| <= o.cleanOrphansMax;
    forall n :: n in orphans ==> if clean then n !in s else n in s && s[n] == t[n]
  }

  ghost function Rehashes(t: Table, ms: seq<Migration>, o: Options): set<Migration>
  {
    set m | m in ms && OnlyRehashed(t, m, o)
  }

  ghost function NewArchived(t: Table, ms: seq<Migration>): set<Migration>
  {
    set m | m in ms && m.name !in t && m.state == "ARCHIVED"
  }

  lemma RehashesStep(t: Table, front: seq<Migration>, m: Migration, o: Options)
    requires m.name !in Names(front)
    ensures |Rehashes(t, front + [m], o)| == |Rehashes(t, front, o)| + if OnlyRehashed(t, m, o) then 1 else 0
  {
    hide OnlyRehashed;
    assert m !in front by {
      assert m in front ==> m.name in Names(front);
    }
    assert Rehashes(t, front + [m], o) == Rehashes(t, front, o) + if OnlyRehashed(t, m, o) then {m} else {};
  }

  lemma NewArchivedStep(t: Table, front: seq<Migration>, m: Migration)
    requires m.name !in Names(front)
    ensures |NewArchived(t, front + [m])| == |NewArchived(t, front)| + if m.name !in t && m.state == "ARCHIVED" then 1
                                                                       else 0
  {
    assert m !in front by {
      assert m in front ==> m.name in Names(front);
    }
    assert NewArchived(t, front + [m]) == NewArchived(t, front) + if m.name !in t && m.state == "ARCHIVED" then {m}
                                                                  else {};
  }

  /** The counts of a run are those of the migrations that were only rehashed, and of the new ones that are archived. */
  lemma {:induction false} CountsAreSizes(t: Table, ms: seq<Migration>, o: Options)
    requires Distinct(ms)
    ensures CountRehashed(t, ms, o) == |Rehashes(t, ms, o)| && CountArchived(t, ms, o) == |NewArchived(t, ms)|
  {
    hide Decide, OnlyRehashed, Distinct, Rehashes, NewArchived, Names;
    if ms == [] {
      NothingToCount(t, o);
    } else {
      var front, last := ms[..|ms| - 1], ms[|ms| - 1];
      LastIsNew(ms);
      CountsAreSizes(t, front, o);
      DecisionMeans(t, last, o);
      RehashesStep(t, front, last, o);
      NewArchivedStep(t, front, last);
      assert ms == front + [last];
    }
  }

  lemma NothingToCount(t: Table, o: Options)
    ensures Rehashes(t, [], o) == {} && NewArchived(t, []) == {}
  {
  }

  lemma RunRanWhatMust(t: Table, ms: seq<Migration>, o: Options)
    ensures RanWhatMust(t, ms, o, ToExecute(t, ms, o))
  {
    hide Decide, MustRun, ToExecute;
    ExecutedAreTheChanged(t, ms, o);
    forall m ensures m in ToExecute(t, ms, o) <==> m in ms && MustRun(t, m, o) {
      DecisionMeans(t, m, o);
    }
  }

  lemma RunSetsEntries(t: Table, ms: seq<Migration>, o: Options)
    requires Distinct(ms)
    ensures EntriesAreOwn(t, Finished(t, ms, o), ms, o)
  {
    hide Decide, SettleAll, Distinct, Cleans, Orphans;
    SettledAll(t, ms, o);
    forall m | m in ms
      ensures m.name in Finished(t, ms, o)
      ensures Finished(t, ms, o)[m.name] == if Unchecked(t, m, o) then t[m.name] else Record(m.hash, m.state)
    {
      DecisionMeans(t, m, o);
      NoOrphan(SettleAll(t, ms, o), ms, m);
    }
  }

  lemma NoOrphan(t: Table, ms: seq<Migration>, m: Migration)
    requires m in ms
    ensures m.name !in Orphans(t, ms)
  {
  }

  lemma RunCleansOrphans(t: Table, ms: seq<Migration>, o: Options)
    requires Distinct(ms)
    ensures OrphansAreCleaned(t, Finished(t, ms, o), ms, o)
  {
    hide Decide, SettleAll, Distinct, Entry;
    SettledAll(t, ms, o);
    assert Orphans(SettleAll(t, ms, o), ms) == Orphans(t, ms);
  }

  lemma RunMeans(t: Table, ms: seq<Migration>, o: Options)
    requires Distinct(ms)
    ensures RanWhatMust(t, ms, o, ToExecute(t, ms, o)) && EntriesAreOwn(t, Finished(t, ms, o), ms, o)
    ensures OrphansAreCleaned(t, Finished(t, ms, o), ms, o)
    ensures CountRehashed(t, ms, o) == |Rehashes(t, ms, o)| && CountArchived(t, ms, o) == |NewArchived(t, ms)|
  {
    RunRanWhatMust(t, ms, o);
    RunSetsEntries(t, ms, o);
    RunCleansOrphans(t, ms, o);
    CountsAreSizes(t, ms, o);
  }

  /** The counts that a finished run reports. */
  function Totals(t: Table, ms: seq<Migration>, o: Options): Result
  {
    var s := SettleAll(t, ms, o);
    Result(|ToExecute(t, ms, o)|, CountRehashed(t, ms, o), CountArchived(t, ms, o),
           if Cleans(s, ms, o) then |Orphans(s, ms)| else 0)
  }

  lemma NamesOfCompleted(ms: seq<Migration>, digest: string -> string)
    ensures Names(CompletedAll(ms, digest)) == Names(ms)
  {
  }

  lemma SeenVersion(ms: seq<Migration>, k: nat, seen: set<int>)
    requires k < |ms| && seen == (set m | m in ms[..k] :: m.version) && ms[k].version in seen
    ensures exists i :: 0 <= i < k && ms[i].version == ms[k].version
  {
  }

  lemma SeenName(ms: seq<Migration>, k: nat)
    requires k < |ms| && ms[k].name in Names(ms[..k])
    ensures exists i :: 0 <= i < k && ms[i].name == ms[k].name
  {
  }

  ghost predicate AllRun(ms: seq<Migration>, refused: set<string>)
  {
    forall m :: m in ms ==> Runs(m, refused)
  }

  function Tallied(r: Result, a: Action, m: Migration): Result
  {
    match a
    case Rehash => r.(rehashed := r.rehashed + 1)
    case Execute(replacing) =>
      r.(applied := r.applied + 1, archived := if !replacing && m.state == ARCHIVED then r.archived + 1 else r.archived)
    case _ => r
  }

  /** The state between two migrations: everything is what the list so far asks of the first table. */
  ghost predicate Midway(t: Table, ms: seq<Migration>, o: Options, refused: set<string>, now: Table,
                         log: seq<Migration>, seen: set<int>, seenNames: set<string>, r: Result)
  {
    seen == (set m | m in ms :: m.version) && seenNames == Names(ms) && Distinct(ms) && now == SettleAll(t, ms, o) &&
    log == ToExecute(t, ms, o) && AllRun(log, refused) &&
    r == Result(|log|, CountRehashed(t, ms, o), CountArchived(t, ms, o), 0)
  }

  lemma MidwayStart(t: Table, o: Options, refused: set<string>)
    ensures Midway(t, [], o, refused, t, [], {}, {}, Result(0, 0, 0, 0))
  {
  }

  lemma MidwayFacts(t: Table, ms: seq<Migration>, o: Options, refused: set<string>, now: Table, log: seq<Migration>,
                    seen: set<int>, seenNames: set<string>, r: Result)
    requires Midway(t, ms, o, refused, now, log, seen, seenNames, r)
    ensures seen == (set m | m in ms :: m.version) && seenNames == Names(ms) && Distinct(ms) &&
            now == SettleAll(t, ms, o)
    ensures log == ToExecute(t, ms, o) && AllRun(log, refused)
    ensures r == Result(|log|, CountRehashed(t, ms, o), CountArchived(t, ms, o), 0)
  {
  }

  lemma Appended(t: Table, ms: seq<Migration>, m: Migration, o: Options)
    ensures var a := Decide(t, m, o);
            SettleAll(t, ms + [m], o) == Settle(SettleAll(t, ms, o), m, o) &&
            ToExecute(t, ms + [m], o) == ToExecute(t, ms, o) + (if a.Execute? then [m] else []) &&
            CountRehashed(t, ms + [m], o) == CountRehashed(t, ms, o) + (if a == Rehash then 1 else 0) &&
            CountArchived(t, ms + [m], o) ==
            CountArchived(t, ms, o) + if a == Execute(false) && m.state == ARCHIVED then 1 else 0
  {
  }

  lemma StillDistinct(ms: seq<Migration>, m: Migration)
    requires Distinct(ms) && (forall x :: x in ms ==> x.version != m.version && x.name != m.name)
    ensures Distinct(ms + [m])
  {
  }

  lemma MidwayStep(t: Table, ms: seq<Migration>, o: Options, refused: set<string>, now: Table, log: seq<Migration>,
                   seen: set<int>, seenNames: set<string>, r: Result, m: Migration)
    requires Midway(t, ms, o, refused, now, log, seen, seenNames, r) && m.version !in seen && m.name !in seenNames
    ensures Decide(now, m, o) == Decide(t, m, o)
    ensures var a := Decide(t, m, o);
            (a.Execute? ==> Runs(m, refused)) ==>
              Midway(t, ms + [m], o, refused, Settle(now, m, o), log + (if a.Execute? then [m] else []),
                     seen + {m.version}, seenNames + {m.name}, Tallied(r, a, m))
  {
    hide Decide, Settle, SettleAll, ToExecute, CountRehashed, CountArchived, Distinct, Runs, Settled;
    SettledAll(t, ms, o);
    DecisionIsLocal(t, now, ms, m, o);
    Appended(t, ms, m, o);
    forall x | x in ms ensures x.version != m.version && x.name != m.name {
      assert x.version in seen && x.name in Names(ms);
    }
    StillDistinct(ms, m);
    SeenGrows(ms, m);
  }

  lemma SeenGrows(ms: seq<Migration>, m: Migration)
    ensures (set x | x in ms + [m] :: x.version) == (set x | x in ms :: x.version) + {m.version}
    ensures Names(ms + [m]) == Names(ms) + {m.name}
  {
  }
}
