/**
 The achievement engine: criteria counters, completion checks and the mutual recursion by which completing one
 achievement advances the criteria of others.
 */
module Achievements {
  import opened Sequences
  import opened Wrappers

  const WRAP: nat := 0x1_0000_0000
  const COMPLETE_ACHIEVEMENT: nat := 8
  const EARN_ACHIEVEMENT_POINTS: nat := 115

  datatype Criterion = Criterion(
    id: nat, achievement: nat, kind: nat, asset: nat, quantity: nat,
    reqType1: nat, reqAsset1: nat, reqType2: nat, reqAsset2: nat,
    startEvent: nat, startAsset: nat, startTimer: nat)

  /** `faction` is negative for any, 0 for Horde and 1 for Alliance; a `minimum` of 0 asks for every criterion. */
  datatype Achievement = Achievement(faction: int, points: nat, minimum: nat)

  datatype Team = Horde | Alliance

  /** An unsigned 32-bit counter. */
  type Word = n: nat | n < WRAP witness 0

  type Progress = map<nat, Word>

  /** Whether a player meets a criterion's side conditions, given the two values an event carries. */
  type Conditions = (Criterion, nat, nat) -> bool

  ghost predicate UniqueIds(s: seq<Criterion>)
  {
    forall i, j :: 0 <= i < j < |s| ==> s[i].id != s[j].id
  }

  lemma VisitedOnce(s: seq<Criterion>, i: nat)
    requires UniqueIds(s) && i < |s|
    ensures s[i] !in s[..i]
  {
  }

  lemma FilterKeepsUnique(s: seq<Criterion>, p: Criterion -> bool)
    requires UniqueIds(s)
    ensures UniqueIds(Filter(s, p))
  {
    FilterKeepsPairs(s, p, (c: Criterion, d: Criterion) => c.id != d.id);
  }

  function Count(progress: Progress, id: nat): Word
  {
    if id in progress then progress[id] else 0
  }

  predicate Done(progress: Progress, c: Criterion)
  {
    c.id in progress && c.quantity > 0 && progress[c.id] >= c.quantity
  }

  lemma NotDone(progress: Progress, c: Criterion)
    requires c.id in progress && !(c.quantity > 0 && progress[c.id] >= c.quantity)
    ensures !Done(progress, c)
  {
  }

  function CountDone(progress: Progress, s: seq<Criterion>): nat
  {
    if s == [] then 0 else (if Done(progress, s[0]) then 1 else 0) + CountDone(progress, s[1..])
  }

  lemma {:induction false} CountDoneMonotone(p: Progress, q: Progress, s: seq<Criterion>)
    requires forall c :: c in s && Done(p, c) ==> Done(q, c)
    ensures CountDone(p, s) <= CountDone(q, s)
  {
    if s != [] {
      CountDoneMonotone(p, q, s[1..]);
    }
  }

  lemma HeadIsNew(s: seq<Criterion>)
    requires UniqueIds(s) && s != []
    ensures UniqueIds(s[1..]) && s[0] !in s[1..] && forall c :: c in s <==> c == s[0] || c in s[1..]
  {
    assert s == [s[0]] + s[1..];
  }

  ghost function DoneIn(progress: Progress, s: seq<Criterion>): set<Criterion>
  {
    set c | c in s && Done(progress, c)
  }

  lemma DoneInStep(progress: Progress, s: seq<Criterion>)
    requires UniqueIds(s) && s != []
    ensures DoneIn(progress, s) == DoneIn(progress, s[1..]) + if Done(progress, s[0]) then {s[0]} else {}
    ensures s[0] !in DoneIn(progress, s[1..])
  {
    hide Done;
    HeadIsNew(s);
  }

  /** In a list without repetition the count is the number of criteria that are met. */
  lemma {:induction false} CountDoneIsSize(progress: Progress, s: seq<Criterion>)
    requires UniqueIds(s)
    ensures CountDone(progress, s) == |DoneIn(progress, s)|
  {
    hide Done, UniqueIds, DoneIn;
    if s == [] {
      NothingIsDone(progress);
    } else {
      HeadIsNew(s);
      DoneInStep(progress, s);
      CountDoneIsSize(progress, s[1..]);
    }
  }

  lemma NothingIsDone(progress: Progress)
    ensures DoneIn(progress, []) == {}
  {
  }

  lemma {:induction false} AllAreCounted(progress: Progress, s: seq<Criterion>)
    ensures CountDone(progress, s) <= |s|
    ensures CountDone(progress, s) == |s| <==> forall c :: c in s ==> Done(progress, c)
  {
    hide Done;
    if s != [] {
      AllAreCounted(progress, s[1..]);
      assert s == [s[0]] + s[1..];
    }
  }

  /** The static tables. */
  datatype Catalog = Catalog(
    criteria: seq<Criterion>, achievements: map<nat, Achievement>, exploreByZone: map<nat, seq<nat>>)
  {
    ghost predicate Valid()
    {
      UniqueIds(criteria)
    }

    function ByTypeAsset(kind: nat, asset: nat): seq<Criterion>
    {
      Filter(criteria, (c: Criterion) => c.kind == kind && c.asset == asset)
    }

    function ByTimedEvent(event: nat, asset: nat): seq<Criterion>
    {
      Filter(criteria, (c: Criterion) => c.startEvent != 0 && c.startEvent == event && c.startAsset == asset)
    }

    lemma TimedAre(event: nat, asset: nat)
      ensures forall c :: c in ByTimedEvent(event, asset) <==>
                c in criteria && c.startEvent == event != 0 && c.startAsset == asset
    {
    }

    function ByAchievement(id: nat): seq<Criterion>
    {
      Filter(criteria, (c: Criterion) => c.achievement == id)
    }

    /** The criteria with this additional requirement; one that lists it twice with different assets appears twice. */
    function ByCondition(condition: nat): seq<Criterion>
    {
      ConditionList(criteria, condition)
    }

    lemma ConditionAre(condition: nat)
      ensures forall c :: c in ByCondition(condition) <==>
                c in criteria && condition != 0 && (c.reqType1 == condition || c.reqType2 == condition)
    {
    }

    static function ConditionList(s: seq<Criterion>, condition: nat): (r: seq<Criterion>)
      ensures forall c :: c in r <==> c in s && condition != 0 && (c.reqType1 == condition || c.reqType2 == condition)
    {
      if s == [] || condition == 0 then [] else
        (if s[0].reqType1 == condition then [s[0]] else []) +
        (if s[0].reqType2 == condition && (s[0].reqType2 != s[0].reqType1 || s[0].reqAsset2 != s[0].reqAsset1)
         then [s[0]] else []) +
        ConditionList(s[1..], condition)
    }

    function ById(id: nat): seq<Criterion>
    {
      Filter(criteria, (c: Criterion) => c.id == id)
    }

    /** The criteria an event of this type and asset advances: those for the asset, then those for any asset. */
    function Matched(kind: nat, asset: nat): seq<Criterion>
    {
      ByTypeAsset(kind, asset) + if asset != 0 then ByTypeAsset(kind, 0) else []
    }

    predicate EligibleFor(team: Team, id: nat)
    {
      && id in achievements
      && (achievements[id].faction == 0 ==> team == Horde)
      && (achievements[id].faction == 1 ==> team == Alliance)
    }

    function Needed(id: nat): nat
      requires id in achievements
    {
      if achievements[id].minimum == 0 then |ByAchievement(id)| else achievements[id].minimum
    }

    /** A player of this team with this progress deserves the achievement. */
    predicate Met(team: Team, progress: Progress, id: nat)
    {
      && EligibleFor(team, id)
      && ByAchievement(id) != []
      && CountDone(progress, ByAchievement(id)) >= Needed(id)
    }

    /** The criteria of an achievement whose stored counter has reached the quantity they ask for. */
    ghost function Standing(progress: Progress, id: nat): set<Criterion>
    {
      set c | c in criteria && c.achievement == id && c.id in progress && 0 < c.quantity <= progress[c.id]
    }

    /**
     What deserving means: the achievement is known and open to the team, it has criteria, and those that stand are all
     of them, or as many as the minimum asks for.
     */
    ghost predicate Deserves(team: Team, progress: Progress, id: nat)
    {
      && id in achievements
      && (achievements[id].faction == 0 ==> team == Horde)
      && (achievements[id].faction == 1 ==> team == Alliance)
      && (exists c :: c in criteria && c.achievement == id)
      && if achievements[id].minimum == 0
         then forall c :: c in criteria && c.achievement == id ==> c in Standing(progress, id)
         else |Standing(progress, id)| >= achievements[id].minimum
    }

    lemma StandingIsCounted(progress: Progress, id: nat)
      requires Valid()
      ensures var s := ByAchievement(id);
              && CountDone(progress, s) == |Standing(progress, id)| <= |s|
              && (CountDone(progress, s) == |s| <==> forall c :: c in s ==> c in Standing(progress, id))
    {
      var s := ByAchievement(id);
      FilterKeepsUnique(criteria, (c: Criterion) => c.achievement == id);
      CountDoneIsSize(progress, s);
      AllAreCounted(progress, s);
      assert DoneIn(progress, s) == Standing(progress, id);
    }

    /** The counting check finds exactly what is deserved. */
    lemma MetIsDeserved(team: Team, progress: Progress, id: nat)
      requires Valid()
      ensures Met(team, progress, id) <==> Deserves(team, progress, id)
    {
      hide CountDone, Standing;
      StandingIsCounted(progress, id);
      var s := ByAchievement(id);
      assert s != [] ==> s[0] in s;
    }

    lemma MetMonotone(team: Team, p: Progress, q: Progress, id: nat)
      requires forall c :: c in criteria && c.achievement == id && Done(p, c) ==> Done(q, c)
      ensures Met(team, p, id) ==> Met(team, q, id)
    {
      CountDoneMonotone(p, q, ByAchievement(id));
    }

    lemma MetIsKnown(team: Team, p: Progress, id: nat)
      ensures Met(team, p, id) ==> id in achievements
    {
    }

    /** Changing one counter cannot make another achievement deserved, nor its own unless the criterion is met. */
    lemma OneCounterOneAchievement(team: Team, p: Progress, c: Criterion, value: Word)
      requires Valid() && c in criteria
      ensures forall id :: Met(team, p[c.id := value], id) && (id != c.achievement || !Done(p[c.id := value], c)) ==>
                Met(team, p, id)
    {
      var q := p[c.id := value];
      forall id | Met(team, q, id) && (id != c.achievement || !Done(q, c)) ensures Met(team, p, id) {
        forall d | d in criteria && d.achievement == id && Done(q, d) ensures Done(p, d) {
          assert d.id != c.id;
        }
        MetMonotone(team, q, p, id);
      }
    }

    lemma FoundById(id: nat)
      requires Valid()
      ensures forall c :: c in criteria && c.id == id ==> ById(id) != [] && c == ById(id)[|ById(id)| - 1]
      ensures ById(id) != [] ==> ById(id)[|ById(id)| - 1] in criteria && ById(id)[|ById(id)| - 1].id == id
    {
      var r := ById(id);
      forall c | c in criteria && c.id == id ensures r != [] && c == r[|r| - 1] {
        assert c in r;
        assert r[|r| - 1] in r;
      }
    }

    /** Forgetting or lowering counters makes nothing deserved. */
    lemma FewerCounters(team: Team, p: Progress, q: Progress)
      requires forall c :: c in criteria && Done(q, c) ==> Done(p, c)
      ensures forall id :: Met(team, q, id) ==> Met(team, p, id)
    {
      forall id | Met(team, q, id) ensures Met(team, p, id) {
        MetMonotone(team, q, p, id);
      }
    }

    lemma MatchedAreUnique(kind: nat, asset: nat)
      requires Valid()
      ensures UniqueIds(Matched(kind, asset))
      ensures forall c :: c in Matched(kind, asset) <==>
                c in criteria && c.kind == kind && (c.asset == asset || c.asset == 0)
    {
      FilterKeepsUnique(criteria, (c: Criterion) => c.kind == kind && c.asset == asset);
      FilterKeepsUnique(criteria, (c: Criterion) => c.kind == kind && c.asset == 0);
      var a, b := ByTypeAsset(kind, asset), ByTypeAsset(kind, 0);
      if asset != 0 {
        forall i, j | 0 <= i < |a| && 0 <= j < |b| ensures a[i].id != b[j].id {
          assert a[i] in criteria && b[j] in criteria && a[i] != b[j];
        }
      }
    }
  }

  // ---------- Points ----------

  ghost function PointsOf(achievements: map<nat, Achievement>, ids: set<nat>): nat
  {
    if ids == {} then 0 else
      var id :| id in ids;
      (if id in achievements then achievements[id].points else 0) + PointsOf(achievements, ids - {id})
  }

  lemma {:induction false} PointsWithout(achievements: map<nat, Achievement>, ids: set<nat>, id: nat)
    requires id in ids
    ensures PointsOf(achievements, ids) ==
            (if id in achievements then achievements[id].points else 0) + PointsOf(achievements, ids - {id})
    ensures PointsOf(achievements, {}) == 0
  {
    var k :| k in ids &&
      PointsOf(achievements, ids) ==
        (if k in achievements then achievements[k].points else 0) + PointsOf(achievements, ids - {k});
    if k != id {
      PointsWithout(achievements, ids - {k}, id);
      PointsWithout(achievements, ids - {id}, k);
      assert ids - {k} - {id} == ids - {id} - {k};
    }
  }

  // ---------- Events and what they do ----------

  /** 32-bit addition. */
  function Plus(n: Word, k: nat): Word
  {
    (n + k) % WRAP
  }

  lemma PlusPlus(n: Word, x: nat, y: nat)
    ensures Plus(Plus(n, x), y) == Plus(n, x + y) && Plus(n, 0) == n
  {
  }

  lemma WrapTwice(n: nat, k: nat)
    ensures (n % WRAP + k) % WRAP == (n + k) % WRAP
  {
  }

  /** What an event does to the counters it addresses: add to them, or raise them to an absolute value. */
  datatype Change = Advance(value: Word) | RaiseTo(value: Word)
  {
    function Apply(n: Word): Word
    {
      match this
      case Advance(quantity) => Plus(n, quantity)
      case RaiseTo(level) => if level > n then level else n
    }

    /** The counter a criterion ends with, its side conditions considered. */
    function Target(progress: Progress, c: Criterion, asset: nat, meets: Conditions): Word
    {
      if meets(c, value, asset) then Apply(Count(progress, c.id)) else Count(progress, c.id)
    }
  }

  /** Criteria an event of this type and asset addresses. */
  predicate Addressed(c: Criterion, kind: nat, asset: nat)
  {
    c.kind == kind && (c.asset == asset || c.asset == 0)
  }

  datatype Event = Counted(kind: nat, asset: nat, change: Change) | Explored(zone: nat)
  {
    function Effect(): Change
    {
      if Counted? then change else RaiseTo(1)
    }
  }

  /** What is fixed while an event is dealt with. */
  datatype Rules = Rules(catalog: Catalog, team: Team, meets: Conditions)
  {
    /** The event moves this criterion's counter. Exploration does not ask for side conditions. */
    predicate Concerns(e: Event, c: Criterion)
    {
      match e
      case Counted(kind, asset, change) => Addressed(c, kind, asset) && meets(c, change.value, asset)
      case Explored(zone) => zone in catalog.exploreByZone && c.id in catalog.exploreByZone[zone]
    }
  }

  // ---------- The log of what was done ----------

  /** A counter is created at zero, a counter is changed by an event, or an achievement is earned. */
  datatype Step = Create(c: Criterion, cause: Event) | Store(c: Criterion, cause: Event) | Earn(id: nat)

  /** What a player has done so far. */
  datatype Record = Record(earned: set<nat>, progress: Progress, log: seq<Step>)

  function After(s: Record, t: Step): Record
  {
    match t
    case Create(c, _) => Record(s.earned, s.progress[c.id := 0], s.log + [t])
    case Store(c, cause) =>
      Record(s.earned, s.progress[c.id := cause.Effect().Apply(Count(s.progress, c.id))], s.log + [t])
    case Earn(id) => Record(s.earned + {id}, s.progress, s.log + [t])
  }

  function Replay(p: Record, steps: seq<Step>): Record
  {
    if steps == [] then p else After(Replay(p, steps[..|steps| - 1]), steps[|steps| - 1])
  }

  /** The events that completions since `p` cause: each counts once for its id, and announces a total of points. */
  ghost predicate Chains(catalog: Catalog, p: Record, s: Record, f: Event)
  {
    (f.Counted? && f.kind == COMPLETE_ACHIEVEMENT && f.asset in s.earned - p.earned && f.change == Advance(1)) ||
    (f.Counted? && f.kind == EARN_ACHIEVEMENT_POINTS && f.asset == 0 && f.change.RaiseTo? &&
     exists ids: set<nat> ::
       p.earned < ids && Moment(p, s, ids) && f.change.value == PointsOf(catalog.achievements, ids) % WRAP)
  }

  /** What was earned at some moment between `p` and `s`. */
  ghost predicate Moment(p: Record, s: Record, ids: set<nat>)
  {
    exists n: nat :: |p.log| <= n <= |s.log| && ids == Replay(p, s.log[|p.log|..n]).earned
  }

  /** The event from outside, if there is one, and the ones that completions cause. */
  ghost predicate Allowed(rules: Rules, e: Option<Event>, p: Record, s: Record, f: Event)
  {
    e == Some(f) || Chains(rules.catalog, p, s, f)
  }

  /**
   A step that may be taken at `s`: counters of open criteria move for a reason, and what is earned is new and deserved.
   */
  ghost predicate LegalStep(rules: Rules, e: Option<Event>, p: Record, s: Record, t: Step)
  {
    match t
    case Earn(id) => id !in s.earned && rules.catalog.Met(rules.team, s.progress, id)
    case Create(c, f) => Moves(rules, e, p, s, c, f) && c.id !in s.progress
    case Store(c, f) => Moves(rules, e, p, s, c, f)
  }

  ghost predicate Moves(rules: Rules, e: Option<Event>, p: Record, s: Record, c: Criterion, f: Event)
  {
    c in rules.catalog.criteria && c.achievement !in s.earned && rules.Concerns(f, c) && Allowed(rules, e, p, s, f)
  }

  ghost predicate Legal(rules: Rules, e: Option<Event>, p: Record, steps: seq<Step>)
  {
    steps == [] ||
    (Legal(rules, e, p, steps[..|steps| - 1]) &&
     LegalStep(rules, e, p, Replay(p, steps[..|steps| - 1]), steps[|steps| - 1]))
  }

  /** `q` is `p` after legal steps, which the log holds. */
  ghost predicate Grew(rules: Rules, e: Option<Event>, p: Record, q: Record)
  {
    p.log <= q.log && q == Replay(p, q.log[|p.log|..]) && Legal(rules, e, p, q.log[|p.log|..])
  }

  lemma GrewReflexive(rules: Rules, e: Option<Event>, p: Record)
    ensures Grew(rules, e, p, p)
  {
    assert p.log[|p.log|..] == [];
  }

  lemma GrewByStep(rules: Rules, e: Option<Event>, p: Record, t: Step)
    requires LegalStep(rules, e, p, p, t)
    ensures Grew(rules, e, p, After(p, t))
  {
    assert (p.log + [t])[|p.log|..] == [t];
    assert [t][..0] == [];
    assert Replay(p, [t]) == After(p, t);
  }

  lemma {:induction false} ReplayGrows(p: Record, steps: seq<Step>)
    ensures p.earned <= Replay(p, steps).earned && Replay(p, steps).log == p.log + steps
  {
    if steps != [] {
      ReplayGrows(p, steps[..|steps| - 1]);
      assert steps == steps[..|steps| - 1] + [steps[|steps| - 1]];
    } else {
      assert p.log + [] == p.log;
    }
  }

  lemma {:induction false} ReplayConcat(p: Record, a: seq<Step>, b: seq<Step>)
    ensures Replay(p, a + b) == Replay(Replay(p, a), b)
  {
    if b == [] {
      assert a + b == a;
    } else {
      assert (a + b)[..|a + b| - 1] == a + b[..|b| - 1];
      ReplayConcat(p, a, b[..|b| - 1]);
    }
  }

  /** A moment of the second part is a moment of the whole, and stays one. */
  lemma MomentLifts(p: Record, a: seq<Step>, b: seq<Step>, ids: set<nat>)
    ensures var q := Replay(p, a);
            (Moment(q, Replay(q, b), ids) ==> Moment(p, Replay(q, b), ids)) &&
            (Moment(p, q, ids) ==> Moment(p, Replay(q, b), ids))
  {
    hide Replay;
    var q := Replay(p, a);
    ReplayGrows(p, a);
    ReplayGrows(q, b);
    var s := Replay(q, b);
    if Moment(q, s, ids) {
      var n: nat :| |q.log| <= n <= |s.log| && ids == Replay(q, s.log[|q.log|..n]).earned;
      assert s.log[|p.log|..n] == a + s.log[|q.log|..n];
      ReplayConcat(p, a, s.log[|q.log|..n]);
      assert ids == Replay(p, s.log[|p.log|..n]).earned;
    }
    if Moment(p, q, ids) {
      var n: nat :| |p.log| <= n <= |q.log| && ids == Replay(p, q.log[|p.log|..n]).earned;
      assert s.log[|p.log|..n] == q.log[|p.log|..n];
    }
  }

  lemma ChainsLift(catalog: Catalog, p: Record, a: seq<Step>, b: seq<Step>, f: Event)
    ensures var q := Replay(p, a); var s := Replay(q, b);
            (Chains(catalog, q, s, f) ==> Chains(catalog, p, s, f)) &&
            (Chains(catalog, p, q, f) ==> Chains(catalog, p, s, f))
  {
    hide Replay, Moment, PointsOf;
    var q := Replay(p, a);
    ReplayGrows(p, a);
    ReplayGrows(q, b);
    forall ids
      ensures (Moment(q, Replay(q, b), ids) ==> Moment(p, Replay(q, b), ids)) &&
              (Moment(p, q, ids) ==> Moment(p, Replay(q, b), ids))
    {
      MomentLifts(p, a, b, ids);
    }
  }

  /** A step that is legal in the second part is legal, for the same reason, in the whole. */
  lemma LegalStepLifts(rules: Rules, e: Option<Event>, f: Option<Event>, p: Record, a: seq<Step>, b: seq<Step>, t: Step)
    requires var q := Replay(p, a); LegalStep(rules, f, q, Replay(q, b), t)
    requires f == None || f == e || Chains(rules.catalog, p, Replay(p, a), f.value)
    ensures LegalStep(rules, e, p, Replay(Replay(p, a), b), t)
  {
    hide Catalog.Met, Chains, Replay, Rules.Concerns;
    if !t.Earn? {
      ChainsLift(rules.catalog, p, a, b, t.cause);
    }
  }

  lemma {:induction false} LegalConcat(rules: Rules, e: Option<Event>, f: Option<Event>, p: Record, a: seq<Step>,
                                       b: seq<Step>)
    requires Legal(rules, e, p, a) && Legal(rules, f, Replay(p, a), b)
    requires f == None || f == e || Chains(rules.catalog, p, Replay(p, a), f.value)
    ensures Legal(rules, e, p, a + b)
  {
    hide LegalStep, Chains, Replay;
    if b == [] {
      assert a + b == a;
    } else {
      var front, t := b[..|b| - 1], b[|b| - 1];
      LegalConcat(rules, e, f, p, a, front);
      assert (a + b)[..|a + b| - 1] == a + front;
      ReplayConcat(p, a, front);
      LegalStepLifts(rules, e, f, p, a, front, t);
    }
  }

  /** Growth composes, also when the second part answers an event that a completion of the first caused. */
  lemma GrewTransitive(rules: Rules, e: Option<Event>, f: Option<Event>, p: Record, q: Record, r: Record)
    requires Grew(rules, e, p, q) && Grew(rules, f, q, r)
    requires f == None || f == e || Chains(rules.catalog, p, q, f.value)
    ensures Grew(rules, e, p, r)
  {
    hide Legal, Replay, Chains;
    var a, b := q.log[|p.log|..], r.log[|q.log|..];
    assert r.log[|p.log|..] == a + b;
    ReplayConcat(p, a, b);
    LegalConcat(rules, e, f, p, a, b);
  }

  /** What is earned stays deserved. */
  lemma LegalStepKeepsMet(rules: Rules, e: Option<Event>, p: Record, s: Record, t: Step, id: nat)
    requires rules.catalog.Valid() && LegalStep(rules, e, p, s, t)
    requires (id in s.earned && rules.catalog.Met(rules.team, s.progress, id)) || t == Earn(id)
    ensures rules.catalog.Met(rules.team, After(s, t).progress, id)
  {
    hide Catalog.Met, Allowed;
    if t != Earn(id) {
      var q := After(s, t).progress;
      forall c | c in rules.catalog.criteria && c.achievement == id && Done(s.progress, c) ensures Done(q, c) {
        assert t.Earn? || t.c.id != c.id;
      }
      rules.catalog.MetMonotone(rules.team, s.progress, q, id);
    }
  }

  lemma {:induction false} StepsAreDeserved(rules: Rules, e: Option<Event>, p: Record, steps: seq<Step>)
    requires rules.catalog.Valid() && Legal(rules, e, p, steps)
    ensures forall id :: id in Replay(p, steps).earned - p.earned ==>
              rules.catalog.Met(rules.team, Replay(p, steps).progress, id)
  {
    hide LegalStep, Catalog.Met, Catalog.Valid;
    if steps != [] {
      var front, t := steps[..|steps| - 1], steps[|steps| - 1];
      StepsAreDeserved(rules, e, p, front);
      var s := Replay(p, front);
      forall id | id in Replay(p, steps).earned - p.earned
        ensures rules.catalog.Met(rules.team, Replay(p, steps).progress, id) {
        LegalStepKeepsMet(rules, e, p, s, t, id);
      }
    }
  }

  /** Whatever was earned on the way is deserved by the counters as they stand at the end. */
  ghost predicate Deserved(rules: Rules, p: Record, q: Record)
  {
    forall id :: id in q.earned - p.earned ==> rules.catalog.Met(rules.team, q.progress, id)
  }

  lemma GrownIsDeserved(rules: Rules, e: Option<Event>, p: Record, q: Record)
    requires rules.catalog.Valid() && Grew(rules, e, p, q)
    ensures Deserved(rules, p, q)
  {
    StepsAreDeserved(rules, e, p, q.log[|p.log|..]);
  }

  /** The criteria in `s` whose timers a pass stops: open ones whose conditions hold and that reach their quantity. */
  ghost function StoppedIds(s: seq<Criterion>, earned: set<nat>, progress: Progress, quantity: Word, asset: nat,
                            meets: Conditions): set<nat>
  {
    set c | c in s && c.achievement !in earned && meets(c, quantity, asset) && c.quantity > 0 &&
            Plus(Count(progress, c.id), quantity) >= c.quantity :: c.id
  }

  lemma StoppedStep(s: seq<Criterion>, i: nat, earned: set<nat>, progress: Progress, quantity: Word, asset: nat,
                    meets: Conditions)
    requires i < |s|
    ensures var c, before := s[i], StoppedIds(s[..i], earned, progress, quantity, asset, meets);
            StoppedIds(s[..i + 1], earned, progress, quantity, asset, meets) ==
            before + if c.achievement !in earned && meets(c, quantity, asset) && c.quantity > 0 &&
                        Plus(Count(progress, c.id), quantity) >= c.quantity then {c.id} else {}
  {
    hide Plus;
    assert s[..i + 1] == s[..i] + [s[i]];
  }

  lemma StoppedAre(rules: Rules, p: Record, kind: nat, asset: nat, quantity: Word)
    requires rules.catalog.Valid()
    ensures StoppedIds(rules.catalog.Matched(kind, asset), p.earned, p.progress, quantity, asset, rules.meets) ==
            TimersStopped(rules, p, kind, asset, quantity)
    ensures StoppedIds([], p.earned, p.progress, quantity, asset, rules.meets) == {}
  {
    hide Catalog.Matched, Count;
    rules.catalog.MatchedAreUnique(kind, asset);
  }

  /** The criteria in `s` whose timers an exploration stops: open ones that were at zero. */
  ghost function DiscoveredIds(s: seq<Criterion>, earned: set<nat>, progress: Progress): set<nat>
  {
    set c | c in s && c.achievement !in earned && Count(progress, c.id) == 0 :: c.id
  }

  lemma DiscoveredAre(rules: Rules, p: Record, zone: nat, seen: seq<Criterion>)
    requires forall c :: c in seen ==> c in rules.catalog.criteria
    requires forall c :: c in rules.catalog.criteria ==>
               (c in seen <==> zone in rules.catalog.exploreByZone && c.id in rules.catalog.exploreByZone[zone])
    ensures DiscoveredIds(seen, p.earned, p.progress) == TimersDiscovered(rules, p, zone)
  {
    hide Count;
  }

  lemma DiscoveredNone(earned: set<nat>, progress: Progress)
    ensures DiscoveredIds([], earned, progress) == {}
  {
  }

  lemma DiscoveredStep(s: seq<Criterion>, c: Criterion, earned: set<nat>, progress: Progress)
    ensures DiscoveredIds(s + [c], earned, progress) ==
            DiscoveredIds(s, earned, progress) + if c.achievement !in earned && Count(progress, c.id) == 0 then {c.id}
                                                 else {}
    ensures c in s && c.achievement !in earned && Count(progress, c.id) == 0 ==>
              c.id in DiscoveredIds(s, earned, progress)
  {
  }

  lemma RemainingShrinks(known: set<nat>, p: set<nat>, q: set<nat>)
    requires p <= q
    ensures |known - q| <= |known - p|
  {
    assert known - p == (known - q) + (known * (q - p));
  }

  lemma RemainingShrinksBy(known: set<nat>, p: set<nat>, id: nat)
    requires id in known && id !in p
    ensures |known - (p + {id})| < |known - p|
  {
    assert known - p == (known - (p + {id})) + {id};
  }

  /** Criteria that completing the achievements in `ids` advances. */
  predicate Chained(c: Criterion, ids: set<nat>)
  {
    && ids != {}
    && ((c.kind == COMPLETE_ACHIEVEMENT && (c.asset == 0 || c.asset in ids)) ||
        (c.kind == EARN_ACHIEVEMENT_POINTS && c.asset == 0))
  }

  ghost predicate AlwaysMeets(meets: Conditions, c: Criterion)
  {
    forall v, w :: meets(c, v, w)
  }

  // ---------- Where the counters end ----------

  /** The completions that a criterion counts. */
  function Counting(ids: set<nat>, c: Criterion, meets: Conditions): set<nat>
  {
    if c.kind == COMPLETE_ACHIEVEMENT
    then set id | id in ids && (c.asset == 0 || c.asset == id) && meets(c, 1, id)
    else {}
  }

  /** How many achievements completed between `p` and `q` the criterion counts. */
  function Bumps(p: Record, q: Record, c: Criterion, meets: Conditions): nat
  {
    |Counting(q.earned - p.earned, c, meets)|
  }

  /**
   The counter stands at one of the bases, plus at most the completions that it counts. Points are raised, not counted.
   */
  ghost predicate Within(meets: Conditions, p: Record, q: Record, c: Criterion, bases: set<Word>)
  {
    Addressed(c, EARN_ACHIEVEMENT_POINTS, 0) ||
    exists b: Word, k: nat :: b in bases && k <= Bumps(p, q, c, meets) && Count(q.progress, c.id) == Plus(b, k)
  }

  /**
   The counter moved by the completions it counts: by all of them while its own achievement is open, by some of them
   when that was earned on the way.
   */
  ghost predicate Kept(meets: Conditions, p: Record, q: Record, c: Criterion)
  {
    Within(meets, p, q, c, {Count(p.progress, c.id)}) &&
    (!Chained(c, q.earned - p.earned) || (c.kind == COMPLETE_ACHIEVEMENT && c.achievement !in q.earned) ==>
      Count(q.progress, c.id) == Plus(Count(p.progress, c.id), Bumps(p, q, c, meets)))
  }

  /** What a counter can be built on when the event addresses it. */
  function Bases(n: Word, change: Change, value: Word): set<Word>
  {
    if change.RaiseTo? then {n, value, change.value} else {n, value}
  }

  /** The counter of a criterion that is still open stands at `value`, plus the completions that it counts. */
  ghost predicate Reached(meets: Conditions, p: Record, q: Record, c: Criterion, change: Change, value: Word)
  {
    Within(meets, p, q, c, Bases(Count(p.progress, c.id), change, value)) &&
    (c.achievement !in q.earned &&
     (!Chained(c, q.earned - p.earned) || (c.kind == COMPLETE_ACHIEVEMENT && change.Advance?)) ==>
      Count(q.progress, c.id) == Plus(value, Bumps(p, q, c, meets)))
  }

  /** A counter that stands at one of the bases and moves by completions stays within them. */
  lemma WithinGrows(meets: Conditions, p: Record, q: Record, r: Record, c: Criterion, bases: set<Word>)
    requires p.earned <= q.earned <= r.earned
    requires Within(meets, p, q, c, bases) && Within(meets, q, r, c, {Count(q.progress, c.id)})
    ensures Within(meets, p, r, c, bases)
  {
    hide Bumps, Plus;
    if !Addressed(c, EARN_ACHIEVEMENT_POINTS, 0) {
      BumpsAdd(p, q, r, c, meets);
      var b: Word, k: nat :| b in bases && k <= Bumps(p, q, c, meets) && Count(q.progress, c.id) == Plus(b, k);
      var d: Word, l: nat :| d in {Count(q.progress, c.id)} &&
                             l <= Bumps(q, r, c, meets) && Count(r.progress, c.id) == Plus(d, l);
      PlusPlus(b, k, l);
      assert Count(r.progress, c.id) == Plus(b, k + l);
    }
  }

  /** A counter at a base is within the bases. */
  lemma WithinHere(meets: Conditions, p: Record, q: Record, c: Criterion, bases: set<Word>)
    requires Count(q.progress, c.id) in bases
    ensures Within(meets, p, q, c, bases)
  {
    PlusPlus(Count(q.progress, c.id), 0, 0);
    assert Count(q.progress, c.id) == Plus(Count(q.progress, c.id), 0);
  }

  ghost predicate KeptExcept(catalog: Catalog, meets: Conditions, p: Record, q: Record, except: seq<Criterion>)
  {
    forall c :: c in catalog.criteria && c !in except ==> Kept(meets, p, q, c)
  }

  lemma NoBumps(p: Record, q: Record, c: Criterion, meets: Conditions)
    ensures !Chained(c, q.earned - p.earned) ==> Bumps(p, q, c, meets) == 0
  {
    if !Chained(c, q.earned - p.earned) {
      assert Counting(q.earned - p.earned, c, meets) == {};
    }
  }

  lemma BumpsAdd(p: Record, q: Record, r: Record, c: Criterion, meets: Conditions)
    requires p.earned <= q.earned <= r.earned
    ensures Bumps(p, r, c, meets) == Bumps(p, q, c, meets) + Bumps(q, r, c, meets)
    ensures !Chained(c, r.earned - p.earned) ==> !Chained(c, q.earned - p.earned) && !Chained(c, r.earned - q.earned)
  {
    var a, b := Counting(q.earned - p.earned, c, meets), Counting(r.earned - q.earned, c, meets);
    assert Counting(r.earned - p.earned, c, meets) == a + b && a !! b;
  }

  lemma KeptReflexive(catalog: Catalog, meets: Conditions, p: Record)
    ensures KeptExcept(catalog, meets, p, p, [])
  {
    forall c | c in catalog.criteria ensures Kept(meets, p, p, c) {
      assert p.earned - p.earned == {};
      NoBumps(p, p, c, meets);
      WithinHere(meets, p, p, c, {Count(p.progress, c.id)});
    }
  }

  lemma KeptTransitive(meets: Conditions, p: Record, q: Record, r: Record, c: Criterion)
    requires p.earned <= q.earned <= r.earned && Kept(meets, q, r, c)
    ensures Kept(meets, p, q, c) ==> Kept(meets, p, r, c)
    ensures forall change, v :: Reached(meets, p, q, c, change, v) ==> Reached(meets, p, r, c, change, v)
  {
    hide Bumps, Chained, Plus, Within, Bases;
    BumpsAdd(p, q, r, c, meets);
    forall bases ensures Within(meets, p, q, c, bases) ==> Within(meets, p, r, c, bases) {
      if Within(meets, p, q, c, bases) {
        WithinGrows(meets, p, q, r, c, bases);
      }
    }
    forall v: Word
      ensures Plus(Plus(v, Bumps(p, q, c, meets)), Bumps(q, r, c, meets)) == Plus(v, Bumps(p, r, c, meets))
    {
      PlusPlus(v, Bumps(p, q, c, meets), Bumps(q, r, c, meets));
    }
  }

  lemma KeptExceptTransitive(catalog: Catalog, meets: Conditions, p: Record, q: Record, r: Record,
                             except: seq<Criterion>)
    requires p.earned <= q.earned <= r.earned
    requires KeptExcept(catalog, meets, p, q, except) && KeptExcept(catalog, meets, q, r, except)
    ensures KeptExcept(catalog, meets, p, r, except)
  {
    hide Kept;
    forall c | c in catalog.criteria && c !in except ensures Kept(meets, p, r, c) {
      KeptTransitive(meets, p, q, r, c);
    }
  }

  /** Completing `id` counts once for every criterion that counts it. */
  lemma CompletionCounts(p: Record, q: Record, id: nat, c: Criterion, meets: Conditions)
    requires id !in p.earned && q.earned == p.earned + {id}
    ensures Bumps(p, q, c, meets) == if Addressed(c, COMPLETE_ACHIEVEMENT, id) && meets(c, 1, id) then 1 else 0
    ensures Chained(c, q.earned - p.earned) <==>
              Addressed(c, COMPLETE_ACHIEVEMENT, id) || Addressed(c, EARN_ACHIEVEMENT_POINTS, 0)
  {
    assert q.earned - p.earned == {id};
    assert Counting({id}, c, meets) == if Addressed(c, COMPLETE_ACHIEVEMENT, id) && meets(c, 1, id) then {id} else {};
  }

  /**
   Completing `id` at `p`: award (`q`), advance the criteria that count it (`r`), then those that count points (`s`).
   */
  lemma CompletionKeeps(catalog: Catalog, p: Record, q: Record, r: Record, s: Record, id: nat, meets: Conditions)
    requires id !in p.earned && q.earned == p.earned + {id} && q.progress == p.progress &&
             q.earned <= r.earned <= s.earned
    requires forall c :: c in catalog.criteria ==>
               if Addressed(c, COMPLETE_ACHIEVEMENT, id)
               then Reached(meets, q, r, c, Advance(1), Advance(1).Target(q.progress, c, id, meets))
               else Kept(meets, q, r, c)
    requires forall c :: c in catalog.criteria && !Addressed(c, EARN_ACHIEVEMENT_POINTS, 0) ==> Kept(meets, r, s, c)
    ensures KeptExcept(catalog, meets, p, s, [])
  {
    hide Kept, Reached, Addressed, Change.Target;
    forall c | c in catalog.criteria ensures Kept(meets, p, s, c) {
      CompletionKeepsOne(p, q, r, s, id, c, meets);
    }
  }

  lemma PointsAreWithin(meets: Conditions, p: Record, q: Record, c: Criterion, bases: set<Word>)
    requires Addressed(c, EARN_ACHIEVEMENT_POINTS, 0)
    ensures Within(meets, p, q, c, bases)
  {
  }

  lemma CompletionWithin(p: Record, q: Record, r: Record, id: nat, c: Criterion, meets: Conditions)
    requires id !in p.earned && q.earned == p.earned + {id} && q.progress == p.progress && q.earned <= r.earned
    requires if Addressed(c, COMPLETE_ACHIEVEMENT, id)
             then Within(meets, q, r, c,
                         Bases(Count(q.progress, c.id), Advance(1), Advance(1).Target(q.progress, c, id, meets)))
             else Within(meets, q, r, c, {Count(q.progress, c.id)})
    ensures Within(meets, p, r, c, {Count(p.progress, c.id)})
  {
    hide Bumps, Chained, Plus;
    if !Addressed(c, EARN_ACHIEVEMENT_POINTS, 0) {
      CompletionCounts(p, q, id, c, meets);
      BumpsAdd(p, q, r, c, meets);
      var n := Count(p.progress, c.id);
      var moves := Addressed(c, COMPLETE_ACHIEVEMENT, id) && meets(c, 1, id);
      var b: Word, k: nat :| b in (if moves then {n, Plus(n, 1)} else {n}) && k <= Bumps(q, r, c, meets) &&
                             Count(r.progress, c.id) == Plus(b, k);
      PlusPlus(n, 1, k);
      assert Count(r.progress, c.id) == Plus(n, if b == n then k else 1 + k);
    }
  }

  lemma CompletionKeepsOne(p: Record, q: Record, r: Record, s: Record, id: nat, c: Criterion, meets: Conditions)
    requires id !in p.earned && q.earned == p.earned + {id} && q.progress == p.progress &&
             q.earned <= r.earned <= s.earned
    requires if Addressed(c, COMPLETE_ACHIEVEMENT, id)
             then Reached(meets, q, r, c, Advance(1), Advance(1).Target(q.progress, c, id, meets))
             else Kept(meets, q, r, c)
    requires !Addressed(c, EARN_ACHIEVEMENT_POINTS, 0) ==> Kept(meets, r, s, c)
    ensures Kept(meets, p, s, c)
  {
    hide Bumps, Chained, Plus, Within, Bases;
    if Addressed(c, EARN_ACHIEVEMENT_POINTS, 0) {
      PointsAreWithin(meets, p, s, c, {Count(p.progress, c.id)});
    } else {
      CompletionWithin(p, q, r, id, c, meets);
      WithinGrows(meets, p, r, s, c, {Count(p.progress, c.id)});
    }
    CompletionCounts(p, q, id, c, meets);
    BumpsAdd(p, q, r, c, meets);
    BumpsAdd(p, r, s, c, meets);
    var n, x, y, z := Count(p.progress, c.id), Bumps(p, q, c, meets), Bumps(q, r, c, meets), Bumps(r, s, c, meets);
    PlusPlus(n, x, y);
    PlusPlus(n, x + y, z);
  }

  /** A criterion for one achievement rises by exactly one when that achievement is completed. */
  lemma MetaCriterionRisesByOne(meets: Conditions, p: Record, q: Record, c: Criterion, id: nat)
    requires Kept(meets, p, q, c) && c.kind == COMPLETE_ACHIEVEMENT && c.asset == id != 0 && c.achievement !in q.earned
    ensures Count(q.progress, c.id) ==
            if id in q.earned - p.earned && meets(c, 1, id)
            then (Count(p.progress, c.id) + 1) % 0x1_0000_0000
            else Count(p.progress, c.id)
  {
    var counting := Counting(q.earned - p.earned, c, meets);
    assert counting == if id in q.earned - p.earned && meets(c, 1, id) then {id} else {};
  }

  /**
   A pass over `matched` has dealt with its first `i` criteria, sending each counter to its target; `sides` are the
   conditions it asks.
   */
  ghost predicate Processed(catalog: Catalog, p: Record, q: Record, matched: seq<Criterion>, i: nat,
                            change: Change, asset: nat, meets: Conditions, sides: Conditions)
    requires i <= |matched|
  {
    && p.earned <= q.earned
    && KeptExcept(catalog, meets, p, q, matched[..i])
    && forall c :: c in matched[..i] ==>
         c in catalog.criteria && Reached(meets, p, q, c, change, change.Target(p.progress, c, asset, sides))
  }

  lemma WithinAfter(p: Record, q: Record, r: Record, c: Criterion, change: Change, asset: nat, meets: Conditions,
                    sides: Conditions)
    requires p.earned <= q.earned <= r.earned
    requires Within(meets, q, r, c, Bases(Count(q.progress, c.id), change, change.Target(q.progress, c, asset, sides)))
    ensures var bases := Bases(Count(p.progress, c.id), change, change.Target(p.progress, c, asset, sides));
            Within(meets, p, q, c, {Count(p.progress, c.id)}) || (change.RaiseTo? && Within(meets, p, q, c, bases)) ==>
              Within(meets, p, r, c, bases)
  {
    hide Bumps, Plus;
    var bases := Bases(Count(p.progress, c.id), change, change.Target(p.progress, c, asset, sides));
    if !Addressed(c, EARN_ACHIEVEMENT_POINTS, 0) &&
       (Within(meets, p, q, c, {Count(p.progress, c.id)}) || (change.RaiseTo? && Within(meets, p, q, c, bases))) {
      BumpsAdd(p, q, r, c, meets);
      var at := Count(q.progress, c.id);
      var b: Word, k: nat :| b in bases && k <= Bumps(p, q, c, meets) && at == Plus(b, k) &&
                             (change.Advance? ==> b == Count(p.progress, c.id));
      var d: Word, l: nat :| d in Bases(at, change, change.Target(q.progress, c, asset, sides)) &&
                             l <= Bumps(q, r, c, meets) &&
                             Count(r.progress, c.id) == Plus(d, l);
      PlusPlus(b, k, l);
      PlusPlus(b, k, change.value);
      PlusPlus(b, change.value, k);
      PlusPlus(Plus(b, change.value), k, l);
      if d == at {
        assert Count(r.progress, c.id) == Plus(b, k + l);
      } else if change.RaiseTo? {
        assert d == change.value;
      } else {
        assert Count(r.progress, c.id) == Plus(Plus(b, change.value), k + l);
      }
    }
  }

  /** The change a pass makes to one criterion, after completions before it and with completions after it. */
  lemma ReachedAfterKept(p: Record, q: Record, r: Record, c: Criterion, change: Change, asset: nat, meets: Conditions,
                         sides: Conditions)
    requires p.earned <= q.earned <= r.earned
    requires Reached(meets, q, r, c, change, change.Target(q.progress, c, asset, sides))
    ensures Kept(meets, p, q, c) ==> Reached(meets, p, r, c, change, change.Target(p.progress, c, asset, sides))
    ensures change.RaiseTo? && Reached(meets, p, q, c, change, change.Target(p.progress, c, asset, sides)) ==>
              Reached(meets, p, r, c, change, change.Target(p.progress, c, asset, sides))
  {
    hide Bumps, Chained, Plus, Within, Bases;
    WithinAfter(p, q, r, c, change, asset, meets, sides);
    BumpsAdd(p, q, r, c, meets);
    NoBumps(p, r, c, meets);
    var n, x, y := Count(p.progress, c.id), Bumps(p, q, c, meets), Bumps(q, r, c, meets);
    PlusPlus(n, x, y);
    PlusPlus(n, x, change.value);
    PlusPlus(n, x + change.value, y);
    PlusPlus(n, change.value, x + y);
    PlusPlus(change.Target(p.progress, c, asset, sides), 0, 0);
    PlusPlus(Count(q.progress, c.id), 0, 0);
    PlusPlus(change.Target(q.progress, c, asset, sides), 0, 0);
  }

  /** One more criterion of the pass. */
  lemma ProcessedStep(catalog: Catalog, p: Record, q: Record, r: Record, matched: seq<Criterion>, i: nat,
                      change: Change, asset: nat, meets: Conditions, sides: Conditions)
    requires i < |matched| && matched[i] in catalog.criteria && (matched[i] !in matched[..i] || change.RaiseTo?)
    requires Processed(catalog, p, q, matched, i, change, asset, meets, sides) && q.earned <= r.earned
    requires KeptExcept(catalog, meets, q, r, [matched[i]])
    requires Reached(meets, q, r, matched[i], change, change.Target(q.progress, matched[i], asset, sides))
    ensures Processed(catalog, p, r, matched, i + 1, change, asset, meets, sides)
  {
    hide Kept, Reached, Change.Target;
    var criterion := matched[i];
    assert matched[..i + 1] == matched[..i] + [criterion];
    forall c | c in catalog.criteria && c !in matched[..i + 1] ensures Kept(meets, p, r, c) {
      KeptTransitive(meets, p, q, r, c);
    }
    forall c | c in matched[..i + 1]
      ensures Reached(meets, p, r, c, change, change.Target(p.progress, c, asset, sides)) {
      if c == criterion {
        ReachedAfterKept(p, q, r, c, change, asset, meets, sides);
      } else {
        KeptTransitive(meets, p, q, r, c);
      }
    }
  }

  lemma ProcessedNone(catalog: Catalog, p: Record, matched: seq<Criterion>, change: Change, asset: nat,
                      meets: Conditions, sides: Conditions)
    ensures Processed(catalog, p, p, matched, 0, change, asset, meets, sides)
  {
    KeptReflexive(catalog, meets, p);
  }

  lemma ProcessedLonger(catalog: Catalog, p: Record, q: Record, matched: seq<Criterion>, next: Criterion,
                        change: Change, asset: nat, meets: Conditions, sides: Conditions)
    requires Processed(catalog, p, q, matched, |matched|, change, asset, meets, sides)
    ensures Processed(catalog, p, q, matched + [next], |matched|, change, asset, meets, sides)
  {
    assert (matched + [next])[..|matched|] == matched == matched[..|matched|];
  }

  lemma ProcessedKeeps(catalog: Catalog, p: Record, q: Record, matched: seq<Criterion>, i: nat, change: Change,
                       asset: nat, meets: Conditions, sides: Conditions, c: Criterion)
    requires i <= |matched| && Processed(catalog, p, q, matched, i, change, asset, meets, sides)
    requires c in catalog.criteria
    ensures c !in matched[..i] ==> Kept(meets, p, q, c)
    ensures c in matched[..i] ==> Reached(meets, p, q, c, change, change.Target(p.progress, c, asset, sides))
  {
  }

  lemma ProcessedAll(catalog: Catalog, p: Record, q: Record, matched: seq<Criterion>, change: Change, asset: nat,
                     meets: Conditions, sides: Conditions)
    requires Processed(catalog, p, q, matched, |matched|, change, asset, meets, sides)
    ensures forall c :: c in catalog.criteria ==>
              if c in matched
              then Reached(meets, p, q, c, change, change.Target(p.progress, c, asset, sides))
              else Kept(meets, p, q, c)
  {
    assert matched[..|matched|] == matched;
  }

  /** A criterion whose conditions fail, or whose achievement is earned, is skipped. */
  lemma ProcessedSkip(catalog: Catalog, p: Record, q: Record, matched: seq<Criterion>, i: nat,
                      change: Change, asset: nat, meets: Conditions, sides: Conditions)
    requires i < |matched| && matched[i] in catalog.criteria && (matched[i] !in matched[..i] || change.RaiseTo?)
    requires Processed(catalog, p, q, matched, i, change, asset, meets, sides)
    requires matched[i].achievement in q.earned || !sides(matched[i], change.value, asset)
    ensures Processed(catalog, p, q, matched, i + 1, change, asset, meets, sides)
  {
    hide Processed, Kept;
    KeptReflexive(catalog, meets, q);
    StaysReached(q, matched[i], change, asset, meets, sides);
    ProcessedGrows(catalog, p, q, matched, i, change, asset, meets, sides);
    ProcessedStep(catalog, p, q, q, matched, i, change, asset, meets, sides);
  }

  lemma ProcessedGrows(catalog: Catalog, p: Record, q: Record, matched: seq<Criterion>, i: nat, change: Change,
                       asset: nat, meets: Conditions, sides: Conditions)
    requires i <= |matched| && Processed(catalog, p, q, matched, i, change, asset, meets, sides)
    ensures p.earned <= q.earned
  {
  }

  lemma StaysReached(q: Record, c: Criterion, change: Change, asset: nat, meets: Conditions, sides: Conditions)
    requires c.achievement in q.earned || !sides(c, change.value, asset)
    ensures Reached(meets, q, q, c, change, change.Target(q.progress, c, asset, sides))
  {
    assert q.earned - q.earned == {};
    NoBumps(q, q, c, meets);
    WithinHere(meets, q, q, c, Bases(Count(q.progress, c.id), change, change.Target(q.progress, c, asset, sides)));
  }

  /** A counter that is already as high as the value is left as it is. */
  lemma HighEnough(meets: Conditions, p: Record, q: Record, c: Criterion, change: Change, asset: nat, sides: Conditions)
    requires q.earned == p.earned && Count(q.progress, c.id) == Count(p.progress, c.id)
    requires change.RaiseTo? && Count(p.progress, c.id) >= change.value
    ensures Reached(meets, p, q, c, change, change.Target(p.progress, c, asset, sides))
  {
    assert q.earned - p.earned == {};
    NoBumps(p, q, c, meets);
    WithinHere(meets, p, q, c, Bases(Count(p.progress, c.id), change, change.Target(p.progress, c, asset, sides)));
  }

  lemma StoredThenChecked(catalog: Catalog, meets: Conditions, p: Record, q: Record, r: Record, criterion: Criterion,
                          change: Change, value: Word)
    requires p.earned == q.earned <= r.earned && criterion in catalog.criteria
    requires KeptExcept(catalog, meets, p, q, [criterion]) && Count(q.progress, criterion.id) == value
    requires q == r || KeptExcept(catalog, meets, q, r, [])
    ensures KeptExcept(catalog, meets, p, r, [criterion]) && Reached(meets, p, r, criterion, change, value)
  {
    hide Bumps, Chained, Plus, Within;
    if q == r {
      KeptReflexive(catalog, meets, q);
    }
    forall c | c in catalog.criteria && c != criterion ensures Kept(meets, p, r, c) {
      KeptTransitive(meets, p, q, r, c);
    }
    assert Kept(meets, q, r, criterion);
    assert q.earned == p.earned ==> Bumps(q, r, criterion, meets) == Bumps(p, r, criterion, meets) by {
      BumpsOfEarned(q, p, r, criterion, meets);
    }
    WithinOfEarned(q, p, r, criterion, meets, {value}, Bases(Count(p.progress, criterion.id), change, value));
  }

  lemma WithinOfEarned(q: Record, p: Record, r: Record, c: Criterion, meets: Conditions, some: set<Word>,
                       bases: set<Word>)
    requires q.earned == p.earned && some <= bases && Within(meets, q, r, c, some)
    ensures Within(meets, p, r, c, bases)
  {
  }

  lemma BumpsOfEarned(q: Record, p: Record, r: Record, c: Criterion, meets: Conditions)
    requires q.earned == p.earned
    ensures Bumps(q, r, c, meets) == Bumps(p, r, c, meets)
  {
  }

  lemma ReachedFrom(meets: Conditions, p: Record, q: Record, r: Record, c: Criterion, change: Change, value: Word)
    requires p.earned == q.earned && Count(p.progress, c.id) == Count(q.progress, c.id) &&
             Reached(meets, q, r, c, change, value)
    ensures Reached(meets, p, r, c, change, value)
  {
    hide Within, Bases;
    WithinOfEarned(q, p, r, c, meets, Bases(Count(q.progress, c.id), change, value),
                   Bases(Count(p.progress, c.id), change, value));
  }

  /** The points criteria of unearned achievements have caught up with the points of the earned ones. */
  ghost predicate PointsCaughtUp(catalog: Catalog, meets: Conditions, earned: set<nat>, progress: Progress)
  {
    forall c ::
      c in catalog.criteria && Addressed(c, EARN_ACHIEVEMENT_POINTS, 0) && c.achievement !in earned &&
      AlwaysMeets(meets, c) ==>
        Count(progress, c.id) >= PointsOf(catalog.achievements, earned) % WRAP
  }

  /** The counters of an earned achievement stand still. */
  lemma {:induction false} EarnedStandStill(rules: Rules, e: Option<Event>, p: Record, steps: seq<Step>, c: Criterion)
    requires rules.catalog.Valid() && c in rules.catalog.criteria && Legal(rules, e, p, steps)
    requires c.achievement in p.earned
    ensures Count(Replay(p, steps).progress, c.id) == Count(p.progress, c.id)
  {
    hide Catalog.Met, Allowed, Rules.Concerns;
    if steps != [] {
      var front, t := steps[..|steps| - 1], steps[|steps| - 1];
      EarnedStandStill(rules, e, p, front, c);
      ReplayGrows(p, front);
      assert t.Earn? || t.c.id != c.id;
    }
  }

  /** When nothing was completed on the way, a pass leaves exactly its own changes behind. */
  lemma QuietPass(rules: Rules, e: Option<Event>, p: Record, q: Record, c: Criterion, change: Change, value: Word)
    requires rules.catalog.Valid() && c in rules.catalog.criteria && Grew(rules, e, p, q) && q.earned == p.earned
    ensures Kept(rules.meets, p, q, c) ==> Count(q.progress, c.id) == Count(p.progress, c.id)
    ensures Reached(rules.meets, p, q, c, change, value) ==>
              Count(q.progress, c.id) == if c.achievement in p.earned then Count(p.progress, c.id) else value
  {
    hide Within, Legal, Replay;
    assert q.earned - p.earned == {};
    NoBumps(p, q, c, rules.meets);
    PlusPlus(value, 0, 0);
    PlusPlus(Count(p.progress, c.id), 0, 0);
    if c.achievement in p.earned {
      EarnedStandStill(rules, e, p, q.log[|p.log|..], c);
    }
  }

  /** So a pass that completed nothing finds each counter that it has not dealt with as it was at the start. */
  lemma QuietSoFar(rules: Rules, e: Option<Event>, p: Record, q: Record, matched: seq<Criterion>, i: nat,
                   change: Change,
                   asset: nat, sides: Conditions, c: Criterion)
    requires rules.catalog.Valid() && c in rules.catalog.criteria && Grew(rules, e, p, q) && q.earned == p.earned
    requires i <= |matched| && Processed(rules.catalog, p, q, matched, i, change, asset, rules.meets, sides)
    ensures c !in matched[..i] ==> Count(q.progress, c.id) == Count(p.progress, c.id)
    ensures c in matched[..i] && c.achievement !in p.earned ==>
              Count(q.progress, c.id) == change.Target(p.progress, c, asset, sides)
  {
    hide Processed, Kept, Reached, Grew, Count, Change.Target, Catalog.Valid;
    ProcessedKeeps(rules.catalog, p, q, matched, i, change, asset, rules.meets, sides, c);
    QuietPass(rules, e, p, q, c, change, change.Target(p.progress, c, asset, sides));
  }

  /** What a counting event that completes nothing does to the counters. */
  ghost predicate CountsQuietly(rules: Rules, p: Record, q: Record, kind: nat, asset: nat, quantity: Word)
  {
    forall c :: c in rules.catalog.criteria ==>
      var n := Count(p.progress, c.id);
      Count(q.progress, c.id) ==
      if c.kind == kind && (c.asset == asset || c.asset == 0) && c.achievement !in p.earned &&
         rules.meets(c, quantity, asset)
      then (n + quantity) % 0x1_0000_0000 else n
  }

  /** The timers that such an event stops: of the criteria that it brings to their quantity. */
  ghost function TimersStopped(rules: Rules, p: Record, kind: nat, asset: nat, quantity: Word): set<nat>
  {
    set c | c in rules.catalog.criteria && c.kind == kind && (c.asset == asset || c.asset == 0) &&
            c.achievement !in p.earned && rules.meets(c, quantity, asset) &&
            0 < c.quantity <= (Count(p.progress, c.id) + quantity) % 0x1_0000_0000 :: c.id
  }

  /** What an event with an absolute value does to the counters when it completes nothing. */
  ghost predicate RaisesQuietly(rules: Rules, p: Record, q: Record, kind: nat, asset: nat, value: Word)
  {
    forall c :: c in rules.catalog.criteria ==>
      var n := Count(p.progress, c.id);
      Count(q.progress, c.id) ==
      if c.kind == kind && (c.asset == asset || c.asset == 0) && c.achievement !in p.earned &&
         rules.meets(c, value, asset) && value > n
      then value else n
  }

  /** What exploring a zone does to the counters, and whose timers it stops, when it completes nothing. */
  ghost predicate ExploresQuietly(rules: Rules, p: Record, q: Record, zone: nat)
  {
    forall c :: c in rules.catalog.criteria ==>
      var n := Count(p.progress, c.id);
      Count(q.progress, c.id) ==
      if zone in rules.catalog.exploreByZone && c.id in rules.catalog.exploreByZone[zone] &&
         c.achievement !in p.earned &&
         n == 0
      then 1 else n
  }

  ghost function TimersDiscovered(rules: Rules, p: Record, zone: nat): set<nat>
  {
    set c | c in rules.catalog.criteria && zone in rules.catalog.exploreByZone &&
            c.id in rules.catalog.exploreByZone[zone] && c.achievement !in p.earned &&
            Count(p.progress, c.id) == 0 :: c.id
  }

  /** Where a counting pass that completed nothing leaves every counter. */
  lemma QuietCounts(rules: Rules, e: Option<Event>, p: Record, q: Record, kind: nat, asset: nat, quantity: Word)
    requires rules.catalog.Valid() && Grew(rules, e, p, q) && q.earned == p.earned
    requires forall c :: c in rules.catalog.criteria ==>
               if Addressed(c, kind, asset)
               then Reached(rules.meets, p, q, c, Advance(quantity),
                            Advance(quantity).Target(p.progress, c, asset, rules.meets))
               else Kept(rules.meets, p, q, c)
    ensures CountsQuietly(rules, p, q, kind, asset, quantity)
  {
    hide Kept, Reached, Grew, Count, Catalog.Valid;
    forall c | c in rules.catalog.criteria
      ensures var n := Count(p.progress, c.id);
              Count(q.progress, c.id) ==
              if Addressed(c, kind, asset) && c.achievement !in p.earned && rules.meets(c, quantity, asset)
              then (n + quantity) % 0x1_0000_0000 else n
    {
      QuietPass(rules, e, p, q, c, Advance(quantity), Advance(quantity).Target(p.progress, c, asset, rules.meets));
    }
  }

  lemma QuietRaises(rules: Rules, e: Option<Event>, p: Record, q: Record, kind: nat, asset: nat, value: Word)
    requires rules.catalog.Valid() && Grew(rules, e, p, q) && q.earned == p.earned
    requires forall c :: c in rules.catalog.criteria ==>
               if Addressed(c, kind, asset)
               then Reached(rules.meets, p, q, c, RaiseTo(value),
                            RaiseTo(value).Target(p.progress, c, asset, rules.meets))
               else Kept(rules.meets, p, q, c)
    ensures RaisesQuietly(rules, p, q, kind, asset, value)
  {
    hide Kept, Reached, Grew, Count, Catalog.Valid;
    forall c | c in rules.catalog.criteria
      ensures var n := Count(p.progress, c.id);
              Count(q.progress, c.id) ==
              if Addressed(c, kind, asset) && c.achievement !in p.earned && rules.meets(c, value, asset) && value > n
              then value else n
    {
      QuietPass(rules, e, p, q, c, RaiseTo(value), RaiseTo(value).Target(p.progress, c, asset, rules.meets));
    }
  }

  lemma QuietExploration(rules: Rules, e: Option<Event>, p: Record, q: Record, zone: nat)
    requires rules.catalog.Valid() && Grew(rules, e, p, q) && q.earned == p.earned
    requires forall c :: c in rules.catalog.criteria ==>
               if zone in rules.catalog.exploreByZone && c.id in rules.catalog.exploreByZone[zone]
               then Reached(rules.meets, p, q, c, RaiseTo(1), RaiseTo(1).Apply(Count(p.progress, c.id)))
               else Kept(rules.meets, p, q, c)
    ensures ExploresQuietly(rules, p, q, zone)
  {
    hide Kept, Reached, Grew, Count, Catalog.Valid;
    forall c | c in rules.catalog.criteria
      ensures var n := Count(p.progress, c.id);
              Count(q.progress, c.id) ==
              if zone in rules.catalog.exploreByZone && c.id in rules.catalog.exploreByZone[zone] &&
                 c.achievement !in p.earned && n == 0
              then 1 else n
    {
      QuietPass(rules, e, p, q, c, RaiseTo(1), RaiseTo(1).Apply(Count(p.progress, c.id)));
    }
  }

  lemma {:induction false} PointsAreMonotone(achievements: map<nat, Achievement>, ids: set<nat>, more: set<nat>)
    requires ids <= more
    ensures PointsOf(achievements, ids) <= PointsOf(achievements, more)
  {
    if id :| id in more && id !in ids {
      PointsWithout(achievements, more, id);
      PointsAreMonotone(achievements, ids, more - {id});
    } else {
      assert ids == more;
    }
  }

  lemma EarlierIsLess(p: Record, steps: seq<Step>, k: nat)
    requires k <= |steps|
    ensures Replay(p, steps[..k]).earned <= Replay(p, steps).earned
  {
    hide Replay;
    assert steps == steps[..k] + steps[k..];
    ReplayConcat(p, steps[..k], steps[k..]);
    ReplayGrows(Replay(p, steps[..k]), steps[k..]);
  }

  lemma MomentsAreEarlier(p: Record, steps: seq<Step>, ids: set<nat>)
    requires Moment(p, Replay(p, steps), ids)
    ensures ids <= Replay(p, steps).earned
  {
    hide Replay;
    ReplayGrows(p, steps);
    var log := Replay(p, steps).log;
    var n: nat :| |p.log| <= n <= |log| && ids == Replay(p, log[|p.log|..n]).earned;
    assert log[|p.log|..n] == steps[..n - |p.log|];
    EarlierIsLess(p, steps, n - |p.log|);
  }

  lemma PointsAreAnnounced(catalog: Catalog, p: Record, steps: seq<Step>, f: Event)
    requires Chains(catalog, p, Replay(p, steps), f) && f.kind == EARN_ACHIEVEMENT_POINTS
    ensures f.change.RaiseTo? && f.change.value <= PointsOf(catalog.achievements, Replay(p, steps).earned)
  {
    hide PointsOf, Replay, Moment;
    var s := Replay(p, steps);
    var ids: set<nat> :| p.earned < ids && Moment(p, s, ids) &&
                         f.change.value == PointsOf(catalog.achievements, ids) % WRAP;
    MomentsAreEarlier(p, steps, ids);
    PointsAreMonotone(catalog.achievements, ids, s.earned);
  }

  /** Completions never send a points counter beyond the points that were earned. */
  lemma {:induction false} PointsNeverOvershoot(rules: Rules, e: Option<Event>, p: Record, steps: seq<Step>,
                                                c: Criterion)
    requires rules.catalog.Valid() && c in rules.catalog.criteria && Addressed(c, EARN_ACHIEVEMENT_POINTS, 0)
    requires Legal(rules, e, p, steps) && (e.Some? ==> !rules.Concerns(e.value, c))
    ensures var q := Replay(p, steps); var points := PointsOf(rules.catalog.achievements, q.earned);
            Count(p.progress, c.id) <= Count(q.progress, c.id) &&
            (Count(q.progress, c.id) <= Count(p.progress, c.id) || Count(q.progress, c.id) <= points)
  {
    hide Catalog.Met, PointsOf, Chains;
    if steps != [] {
      var front, t := steps[..|steps| - 1], steps[|steps| - 1];
      PointsNeverOvershoot(rules, e, p, front, c);
      var s := Replay(p, front);
      PointsAreMonotone(rules.catalog.achievements, s.earned, Replay(p, steps).earned);
      if t.Store? && t.c.id == c.id {
        assert t.c == c;
        CauseIsPoints(rules, p, s, t.cause, c);
        PointsAreAnnounced(rules.catalog, p, front, t.cause);
      }
    }
  }

  lemma CauseIsPoints(rules: Rules, p: Record, s: Record, f: Event, c: Criterion)
    requires Chains(rules.catalog, p, s, f) && rules.Concerns(f, c) && Addressed(c, EARN_ACHIEVEMENT_POINTS, 0)
    ensures f.Counted? && f.kind == EARN_ACHIEVEMENT_POINTS
  {
  }

  /** After a completion an open points criterion stands exactly at the points earned, unless it was higher before. */
  lemma PointsAreExact(rules: Rules, p: Record, q: Record, c: Criterion)
    requires rules.catalog.Valid() && Grew(rules, None, p, q) &&
             PointsCaughtUp(rules.catalog, rules.meets, q.earned, q.progress)
    requires c in rules.catalog.criteria && Addressed(c, EARN_ACHIEVEMENT_POINTS, 0)
    requires c.achievement !in q.earned && AlwaysMeets(rules.meets, c)
    requires PointsOf(rules.catalog.achievements, q.earned) < WRAP
    ensures var n, points := Count(p.progress, c.id), PointsOf(rules.catalog.achievements, q.earned);
            Count(q.progress, c.id) == if n < points then points else n
  {
    hide PointsOf, Replay, Legal;
    PointsNeverOvershoot(rules, None, p, q.log[|p.log|..], c);
  }

  lemma PointsStayCaughtUp(catalog: Catalog, meets: Conditions, earned: set<nat>, p: Progress, criterion: Criterion,
                           value: Word)
    requires catalog.Valid() && criterion in catalog.criteria
    ensures PointsCaughtUp(catalog, meets, earned, p) &&
            (criterion.kind != EARN_ACHIEVEMENT_POINTS || value >= Count(p, criterion.id)) ==>
              PointsCaughtUp(catalog, meets, earned, p[criterion.id := value])
  {
  }

  lemma PointsCatchUp(catalog: Catalog, meets: Conditions, p: Record, q: Record, value: Word)
    requires q.earned == p.earned && value == PointsOf(catalog.achievements, p.earned) % WRAP
    requires forall c :: c in catalog.criteria && Addressed(c, EARN_ACHIEVEMENT_POINTS, 0) ==>
               Reached(meets, p, q, c, RaiseTo(value), RaiseTo(value).Target(p.progress, c, 0, meets))
    ensures PointsCaughtUp(catalog, meets, q.earned, q.progress)
  {
    hide PointsOf;
    assert q.earned - p.earned == {};
    forall c | c in catalog.criteria && Addressed(c, EARN_ACHIEVEMENT_POINTS, 0) &&
               c.achievement !in q.earned && AlwaysMeets(meets, c)
      ensures Count(q.progress, c.id) >= value
    {
      NoBumps(p, q, c, meets);
      assert meets(c, value, 0);
    }
  }

  /** The criteria in `s` that start now: open, timed and not running yet. */
  function StartedIds(s: seq<Criterion>, earned: set<nat>, running: set<nat>): (r: set<nat>)
    ensures r !! running
  {
    if s == [] then {} else
      var c := s[|s| - 1];
      StartedIds(s[..|s| - 1], earned, running) +
      if c.achievement !in earned && c.id !in running && c.startTimer != 0 then {c.id} else {}
  }

  function Zeroed(progress: Progress, ids: set<nat>): Progress
  {
    progress + map id | id in ids :: 0
  }

  lemma {:induction false} StartedAre(s: seq<Criterion>, earned: set<nat>, running: set<nat>, id: nat)
    ensures id in StartedIds(s, earned, running) <==>
              exists c :: c in s && c.id == id && c.achievement !in earned && id !in running && c.startTimer != 0
  {
    if s != [] {
      StartedAre(s[..|s| - 1], earned, running, id);
      assert s == s[..|s| - 1] + [s[|s| - 1]];
    }
  }

  lemma NothingStarted(earned: set<nat>, running: set<nat>, progress: Progress)
    ensures StartedIds([], earned, running) == {} && Zeroed(progress, {}) == progress
  {
  }

  lemma StartedStep(s: seq<Criterion>, i: nat, earned: set<nat>, running: set<nat>, progress: Progress)
    requires i < |s|
    ensures var c, before := s[i], StartedIds(s[..i], earned, running);
            var after := StartedIds(s[..i + 1], earned, running);
            if c.achievement !in earned && c.id !in running && c.startTimer != 0
            then after == before + {c.id} && Zeroed(progress, after) == Zeroed(progress, before)[c.id := 0]
            else after == before
  {
    assert s[..i + 1][..i] == s[..i];
  }

  lemma ZeroedAt(progress: Progress, ids: set<nat>)
    ensures forall id :: id in Zeroed(progress, ids) <==> id in progress || id in ids
    ensures forall id :: id in Zeroed(progress, ids) ==> Zeroed(progress, ids)[id] == if id in ids then 0
                                                                                      else progress[id]
  {
  }

  lemma ZeroedIsLess(progress: Progress, ids: set<nat>)
    ensures forall c :: Done(Zeroed(progress, ids), c) ==> Done(progress, c)
  {
  }

  /** The criterion asks for no other value of the condition; zero stands for any. */
  predicate NamesValue(c: Criterion, condition: nat, value: nat)
  {
    value == 0 ||
    ((c.reqType1 == condition ==> c.reqAsset1 == value) && (c.reqType2 == condition ==> c.reqAsset2 == value))
  }

  /** The criteria in `s` that lose their progress: open, unmet, and naming no other value for the condition. */
  function ResetIds(s: seq<Criterion>, earned: set<nat>, condition: nat, value: nat, progress: Progress): (r: set<nat>)
    ensures r <= progress.Keys
  {
    if s == [] then {} else
      var c := s[|s| - 1];
      ResetIds(s[..|s| - 1], earned, condition, value, progress) +
      if NamesValue(c, condition, value) && c.achievement !in earned && c.id in progress && !Done(progress, c)
      then {c.id} else {}
  }

  lemma {:induction false} ResetAre(s: seq<Criterion>, earned: set<nat>, condition: nat, value: nat, progress: Progress,
                                    id: nat)
    ensures id in ResetIds(s, earned, condition, value, progress) <==>
              id in progress && exists c :: c in s && c.id == id && c.achievement !in earned &&
                                            NamesValue(c, condition, value) && !Done(progress, c)
  {
    hide NamesValue, Done;
    if s != [] {
      ResetAre(s[..|s| - 1], earned, condition, value, progress, id);
      assert s == s[..|s| - 1] + [s[|s| - 1]];
    }
  }

  lemma NothingReset(earned: set<nat>, condition: nat, value: nat, progress: Progress, timed: set<nat>)
    ensures ResetIds([], earned, condition, value, progress) == {} && progress - {} == progress && timed - {} == timed
  {
  }

  lemma ResetStep(s: seq<Criterion>, i: nat, earned: set<nat>, condition: nat, value: nat, progress: Progress,
                  timed: set<nat>)
    requires i < |s|
    ensures var c, before := s[i], ResetIds(s[..i], earned, condition, value, progress);
            var after := ResetIds(s[..i + 1], earned, condition, value, progress);
            if NamesValue(c, condition, value) && c.achievement !in earned && c.id in progress && !Done(progress, c)
            then after == before + {c.id} && progress - after == progress - before - {c.id} &&
                 timed - after == timed - before - {c.id}
            else after == before
  {
    assert s[..i + 1][..i] == s[..i];
  }

  /** Only one counter moved, and nothing was earned. */
  lemma OneCounterMoved(catalog: Catalog, meets: Conditions, p: Record, q: Record, c: Criterion, value: Word)
    requires catalog.Valid() && c in catalog.criteria && q.earned == p.earned
    requires q.progress == p.progress || q.progress == p.progress[c.id := value]
    ensures KeptExcept(catalog, meets, p, q, [c])
  {
    assert q.earned - p.earned == {};
    forall d | d in catalog.criteria && d !in [c] ensures Kept(meets, p, q, d) {
      NoBumps(p, q, d, meets);
      assert d.id != c.id;
      WithinHere(meets, p, q, d, {Count(p.progress, d.id)});
    }
  }

  lemma EarnIsLegal(rules: Rules, p: Record, id: nat)
    requires id !in p.earned && rules.catalog.Met(rules.team, p.progress, id)
    ensures LegalStep(rules, None, p, p, Earn(id))
  {
  }

  lemma MoveIsLegal(rules: Rules, p: Record, c: Criterion, event: Event)
    requires c in rules.catalog.criteria && c.achievement !in p.earned && rules.Concerns(event, c)
    ensures LegalStep(rules, Some(event), p, p, Store(c, event))
    ensures c.id !in p.progress ==> LegalStep(rules, Some(event), p, p, Create(c, event))
  {
  }

  lemma CompletionChains(rules: Rules, p: Record, s: Record, id: nat)
    requires id in s.earned - p.earned
    ensures Chains(rules.catalog, p, s, Counted(COMPLETE_ACHIEVEMENT, id, Advance(1)))
  {
  }

  lemma PointsChain(rules: Rules, p: Record, s: Record, points: Word)
    requires p.earned < s.earned && Grew(rules, None, p, s) &&
             points == PointsOf(rules.catalog.achievements, s.earned) % WRAP
    ensures Chains(rules.catalog, p, s, Counted(EARN_ACHIEVEMENT_POINTS, 0, RaiseTo(points)))
  {
    hide Replay, Legal, PointsOf;
    assert s.log[|p.log|..|s.log|] == s.log[|p.log|..];
    assert Moment(p, s, s.earned);
  }

  class Session {
    const catalog: Catalog
    const team: Team
    var earned: set<nat>
    var progress: Progress
    var timed: set<nat>
    /** What events have done to this session, in order. */
    ghost var log: seq<Step>
    /** Achievements that were deserved but not earned in the rows the session was loaded from. */
    ghost const backlog: set<nat>

    constructor (catalog: Catalog, team: Team, earned: set<nat>, progress: Progress)
      requires catalog.Valid()
      ensures this.catalog == catalog && this.team == team && View() == Record(earned, progress, []) && timed == {}
      ensures Saturated({}) && forall id :: id in backlog <==> catalog.Met(team, progress, id) && id !in earned
    {
      this.catalog, this.team, this.earned, this.progress := catalog, team, earned, progress;
      timed, log := {}, [];
      backlog := set id | id in catalog.achievements && catalog.Met(team, progress, id) && id !in earned;
    }

    ghost function View(): Record
      reads this
    {
      Record(earned, progress, log)
    }

    /** Every achievement the player deserves is earned, except perhaps the backlog and those in `pending`. */
    ghost predicate Saturated(pending: set<nat>)
      reads this
    {
      && catalog.Valid()
      && forall id :: catalog.Met(team, progress, id) && id !in pending && id !in backlog ==> id in earned
    }

    ghost predicate PointsCurrent(meets: Conditions)
      reads this
    {
      PointsCaughtUp(catalog, meets, earned, progress)
    }

    method StopTimed(criterion: nat)
      modifies this`timed
      ensures timed == old(timed) - {criterion}
    {
      if criterion in timed {
        timed := timed - {criterion};
      }
    }

    /** Completes the achievement when enough of its criteria are met. */
    method CheckComplete(id: nat, meets: Conditions)
      requires Saturated({id})
      modifies this
      ensures Saturated({}) && old(earned) <= earned && Grew(Rules(catalog, team, meets), None, old(View()), View())
      ensures KeptExcept(catalog, meets, old(View()), View(), [])
      ensures id in earned <==> id in old(earned) || old(catalog.Deserves(team, progress, id))
      ensures !old(catalog.Deserves(team, progress, id)) || id in old(earned) ==> View() == old(View())
      ensures timed <= old(timed) && (earned == old(earned) ==> timed == old(timed))
      ensures old(PointsCurrent(meets)) || earned != old(earned) ==> PointsCurrent(meets)
      decreases |catalog.achievements.Keys - earned|, 1
    {
      hide Grew, KeptExcept, PointsOf, PointsCaughtUp, Catalog.Deserves;
      GrewReflexive(Rules(catalog, team, meets), None, View());
      KeptReflexive(catalog, meets, View());
      catalog.MetIsDeserved(team, progress, id);
      var criteria := catalog.ByAchievement(id);
      if |criteria| == 0 || id !in catalog.achievements {
        return;
      }
      var entry := catalog.achievements[id];
      if entry.faction >= 0 {
        if (entry.faction == 0 && team != Horde) || (entry.faction == 1 && team != Alliance) {
          return;
        }
      }
      var completed := 0;
      for i := 0 to |criteria|
        invariant completed + CountDone(progress, criteria[i..]) == CountDone(progress, criteria)
      {
        assert criteria[i..][1..] == criteria[i + 1..];
        if Done(progress, criteria[i]) {
          completed := completed + 1;
        }
      }
      var needed := entry.minimum;
      if needed == 0 {
        needed := |criteria|;
      }
      if completed < needed {
        return;
      }
      Complete(id, meets);
    }

    /** Awards an achievement once and advances the criteria that count achievements and points. */
    method Complete(id: nat, meets: Conditions)
      requires Saturated({id}) && catalog.Met(team, progress, id)
      modifies this
      ensures Saturated({}) && old(earned) + {id} <= earned &&
              Grew(Rules(catalog, team, meets), None, old(View()), View())
      ensures KeptExcept(catalog, meets, old(View()), View(), [])
      ensures id in old(earned) ==> View() == old(View())
      ensures timed <= old(timed) && (id in old(earned) ==> timed == old(timed))
      ensures id !in old(earned) ==> PointsCurrent(meets)
      decreases |catalog.achievements.Keys - earned|, 0
    {
      hide Grew, LegalStep, Chains, Catalog.Met, PointsOf, PointsCaughtUp, KeptExcept, Kept, Reached, Chained;
      ghost var rules := Rules(catalog, team, meets);
      if id in earned {
        GrewReflexive(rules, None, View());
        KeptReflexive(catalog, meets, View());
        return;
      }
      EarnIsLegal(rules, View(), id);
      GrewByStep(rules, None, View(), Earn(id));
      earned := earned + {id};
      log := log + [Earn(id)];
      ghost var start := View();
      catalog.MetIsKnown(team, progress, id);
      RemainingShrinksBy(catalog.achievements.Keys, old(earned), id);
      UpdateCriteria(COMPLETE_ACHIEVEMENT, id, 1, meets);
      ghost var middle := View();
      CompletionChains(rules, old(View()), start, id);
      GrewTransitive(rules, None, Some(Counted(COMPLETE_ACHIEVEMENT, id, Advance(1))), old(View()), start, middle);
      RemainingShrinks(catalog.achievements.Keys, start.earned, earned);
      var points := TotalPoints();
      SetCriteria(EARN_ACHIEVEMENT_POINTS, 0, points, meets);
      PointsChain(rules, old(View()), middle, points);
      GrewTransitive(rules, None, Some(Counted(EARN_ACHIEVEMENT_POINTS, 0, RaiseTo(points))), old(View()), middle,
                     View());
      CompletionKeeps(catalog, old(View()), start, middle, View(), id, meets);
    }

    method TotalPoints() returns (total: Word)
      ensures total == PointsOf(catalog.achievements, earned) % WRAP
    {
      total := 0;
      var rest := earned;
      ghost var sum: nat := 0;
      while rest != {}
        invariant rest <= earned && sum + PointsOf(catalog.achievements, rest) == PointsOf(catalog.achievements, earned)
        invariant total == sum % WRAP
        decreases rest
      {
        var id :| id in rest;
        PointsWithout(catalog.achievements, rest, id);
        if id in catalog.achievements {
          WrapTwice(sum, catalog.achievements[id].points);
          total := Plus(total, catalog.achievements[id].points);
          sum := sum + catalog.achievements[id].points;
        }
        rest := rest - {id};
      }
    }

    /** Changes one counter as the event asks. */
    method StoreCounter(criterion: Criterion, value: Word, ghost event: Event, meets: Conditions)
      requires Saturated({}) && criterion in catalog.criteria && criterion.achievement !in earned
      requires Rules(catalog, team, meets).Concerns(event, criterion) &&
               value == event.Effect().Apply(Count(progress, criterion.id))
      modifies this`progress, this`log
      ensures progress == old(progress)[criterion.id := value] && Count(progress, criterion.id) == value
      ensures Saturated({criterion.achievement}) && (!Done(progress, criterion) ==> Saturated({}))
      ensures KeptExcept(catalog, meets, old(View()), View(), [criterion])
      ensures Grew(Rules(catalog, team, meets), Some(event), old(View()), View())
    {
      hide Catalog.Met, Grew, KeptExcept, LegalStep;
      catalog.OneCounterOneAchievement(team, progress, criterion, value);
      MoveIsLegal(Rules(catalog, team, meets), View(), criterion, event);
      GrewByStep(Rules(catalog, team, meets), Some(event), View(), Store(criterion, event));
      OneCounterMoved(catalog, meets, View(), After(View(), Store(criterion, event)), criterion, value);
      progress := progress[criterion.id := value];
      log := log + [Store(criterion, event)];
    }

    /** Puts a counter at zero in place when there is none. */
    method CreateCounter(criterion: Criterion, ghost event: Event, meets: Conditions)
      requires Saturated({}) && criterion in catalog.criteria && criterion.achievement !in earned
      requires Rules(catalog, team, meets).Concerns(event, criterion)
      modifies this`progress, this`log
      ensures Saturated({}) && criterion.id in progress &&
              Grew(Rules(catalog, team, meets), Some(event), old(View()), View())
      ensures Count(progress, criterion.id) == old(Count(progress, criterion.id))
      ensures KeptExcept(catalog, meets, old(View()), View(), [criterion])
      ensures old(PointsCurrent(meets)) ==> PointsCurrent(meets)
    {
      hide Catalog.Met, Grew, KeptExcept, LegalStep, PointsOf, PointsCaughtUp;
      ghost var rules := Rules(catalog, team, meets);
      if criterion.id !in progress {
        catalog.OneCounterOneAchievement(team, progress, criterion, 0);
        MoveIsLegal(rules, View(), criterion, event);
        GrewByStep(rules, Some(event), View(), Create(criterion, event));
        OneCounterMoved(catalog, meets, View(), After(View(), Create(criterion, event)), criterion, 0);
        PointsStayCaughtUp(catalog, meets, earned, progress, criterion, 0);
        progress := progress[criterion.id := 0];
        log := log + [Create(criterion, event)];
      } else {
        GrewReflexive(rules, Some(event), View());
        OneCounterMoved(catalog, meets, View(), View(), criterion, 0);
      }
    }

    /** Stores a counter and, when that meets the criterion's quantity (or `always`), checks its achievement. */
    method PutCounter(criterion: Criterion, value: Word, stopTimer: bool, always: bool, ghost event: Event,
                      meets: Conditions)
      requires Saturated({}) && criterion in catalog.criteria && criterion.achievement !in earned
      requires Rules(catalog, team, meets).Concerns(event, criterion) &&
               value == event.Effect().Apply(Count(progress, criterion.id))
      modifies this
      ensures Saturated({}) && old(earned) <= earned &&
              Grew(Rules(catalog, team, meets), Some(event), old(View()), View())
      ensures KeptExcept(catalog, meets, old(View()), View(), [criterion])
      ensures Reached(meets, old(View()), View(), criterion, event.Effect(), value)
      ensures criterion.kind != EARN_ACHIEVEMENT_POINTS || value >= old(Count(progress, criterion.id)) ==>
                (old(PointsCurrent(meets)) || earned != old(earned) ==> PointsCurrent(meets))
      ensures timed <= old(timed)
      ensures earned == old(earned) ==>
                timed == old(timed) - if stopTimer && (always || 0 < criterion.quantity <= value) then {criterion.id}
                                      else {}
      decreases |catalog.achievements.Keys - earned|, 2
    {
      hide Catalog.Met, Catalog.Deserves, PointsOf, Grew, PointsCaughtUp, Done, KeptExcept, Kept, Reached, Chained;
      hide Rules.Concerns, Plus, Bases, Within, Bumps, Count, Catalog.Valid, Event.Effect, Change.Apply;
      ghost var start, rules := View(), Rules(catalog, team, meets);
      PointsStayCaughtUp(catalog, meets, earned, progress, criterion, value);
      StoreCounter(criterion, value, event, meets);
      ghost var middle := View();
      if always || (criterion.quantity > 0 && progress[criterion.id] >= criterion.quantity) {
        if stopTimer {
          StopTimed(criterion.id);
        }
        CheckComplete(criterion.achievement, meets);
        GrewTransitive(rules, Some(event), None, start, middle, View());
      } else {
        NotDone(progress, criterion);
      }
      StoredThenChecked(catalog, meets, start, middle, View(), criterion, event.Effect(), value);
    }

    /** Advances every matching criterion of an open achievement by `quantity`. */
    method UpdateCriteria(kind: nat, asset: nat, quantity: Word, meets: Conditions)
      requires Saturated({})
      modifies this
      ensures Saturated({}) && old(earned) <= earned &&
              Grew(Rules(catalog, team, meets), Some(Counted(kind, asset, Advance(quantity))), old(View()), View())
      ensures Deserved(Rules(catalog, team, meets), old(View()), View())
      ensures forall c :: c in catalog.criteria ==>
                if Addressed(c, kind, asset)
                then Reached(meets, old(View()), View(), c, Advance(quantity),
                             Advance(quantity).Target(old(progress), c, asset, meets))
                else Kept(meets, old(View()), View(), c)
      ensures kind != EARN_ACHIEVEMENT_POINTS && (old(PointsCurrent(meets)) || earned != old(earned)) ==>
                PointsCurrent(meets)
      // an event that completes nothing
      ensures timed <= old(timed)
      ensures earned == old(earned) ==>
                CountsQuietly(Rules(catalog, team, meets), old(View()), View(), kind, asset, quantity) &&
                timed == old(timed) - TimersStopped(Rules(catalog, team, meets), old(View()), kind, asset, quantity)
      decreases |catalog.achievements.Keys - earned|, 3
    {
      hide Catalog.Met, PointsOf, Grew, Catalog.Matched, PointsCaughtUp, Processed, KeptExcept, Reached, Kept, Chained,
           UniqueIds, CountsQuietly, TimersStopped, StoppedIds, Plus, Count, Bases, Within, Bumps, Catalog.Valid;
      var matched := catalog.Matched(kind, asset);
      ghost var start, rules, event := View(), Rules(catalog, team, meets), Counted(kind, asset, Advance(quantity));
      ghost var change := Advance(quantity);
      catalog.MatchedAreUnique(kind, asset);
      StoppedAre(rules, start, kind, asset, quantity);
      GrewReflexive(rules, Some(event), start);
      ProcessedNone(catalog, start, matched, change, asset, meets, meets);
      for i := 0 to |matched|
        invariant Saturated({}) && start.earned <= earned && Grew(rules, Some(event), start, View())
        invariant Processed(catalog, start, View(), matched, i, change, asset, meets, meets)
        invariant timed <= old(timed)
        invariant earned == start.earned ==>
                    timed == old(timed) - StoppedIds(matched[..i], earned, start.progress, quantity, asset, meets)
        invariant kind != EARN_ACHIEVEMENT_POINTS && (old(PointsCurrent(meets)) || earned != start.earned) ==>
                    PointsCurrent(meets)
      {
        var criterion := matched[i];
        ghost var before := View();
        VisitedOnce(matched, i);
        StoppedStep(matched, i, start.earned, start.progress, quantity, asset, meets);
        if earned == start.earned {
          QuietSoFar(rules, Some(event), start, before, matched, i, change, asset, meets, criterion);
        }
        if criterion.achievement in earned {
          ProcessedSkip(catalog, start, before, matched, i, change, asset, meets, meets);
          continue;
        }
        if !meets(criterion, quantity, asset) {
          ProcessedSkip(catalog, start, before, matched, i, change, asset, meets, meets);
          continue;
        }
        RemainingShrinks(catalog.achievements.Keys, start.earned, earned);
        PutCounter(criterion, Plus(Count(progress, criterion.id), quantity), true, false, event, meets);
        GrewTransitive(rules, Some(event), Some(event), start, before, View());
        ProcessedStep(catalog, start, before, View(), matched, i, change, asset, meets, meets);
      }
      assert matched[..|matched|] == matched;
      ProcessedAll(catalog, start, View(), matched, change, asset, meets, meets);
      if earned == start.earned {
        QuietCounts(rules, Some(event), start, View(), kind, asset, quantity);
      }
      GrownIsDeserved(rules, Some(event), start, View());
    }

    /** Raises every matching criterion of an open achievement to `value`; a counter never goes back. */
    method SetCriteria(kind: nat, asset: nat, value: Word, meets: Conditions)
      requires Saturated({})
      modifies this
      ensures Saturated({}) && old(earned) <= earned &&
              Grew(Rules(catalog, team, meets), Some(Counted(kind, asset, RaiseTo(value))), old(View()), View())
      ensures Deserved(Rules(catalog, team, meets), old(View()), View())
      ensures forall c :: c in catalog.criteria ==>
                if Addressed(c, kind, asset)
                then Reached(meets, old(View()), View(), c, RaiseTo(value),
                             RaiseTo(value).Target(old(progress), c, asset, meets))
                else Kept(meets, old(View()), View(), c)
      ensures old(PointsCurrent(meets)) || earned != old(earned) ==> PointsCurrent(meets)
      ensures kind == EARN_ACHIEVEMENT_POINTS && asset == 0 &&
              value == PointsOf(catalog.achievements, old(earned)) % WRAP
              ==> PointsCurrent(meets)
      // an event that completes nothing
      ensures timed <= old(timed)
      ensures earned == old(earned) ==>
                RaisesQuietly(Rules(catalog, team, meets), old(View()), View(), kind, asset, value) &&
                timed == old(timed)
      decreases |catalog.achievements.Keys - earned|, 3
    {
      hide Catalog.Met, PointsOf, Grew, Catalog.Matched, PointsCaughtUp, Processed, KeptExcept, Reached, Kept, Chained,
           UniqueIds, RaisesQuietly;
      var matched := catalog.Matched(kind, asset);
      ghost var start, rules, event := View(), Rules(catalog, team, meets), Counted(kind, asset, RaiseTo(value));
      ghost var change := RaiseTo(value);
      catalog.MatchedAreUnique(kind, asset);
      GrewReflexive(rules, Some(event), start);
      ProcessedNone(catalog, start, matched, change, asset, meets, meets);
      for i := 0 to |matched|
        invariant Saturated({}) && start.earned <= earned && Grew(rules, Some(event), start, View())
        invariant Processed(catalog, start, View(), matched, i, change, asset, meets, meets)
        invariant timed <= old(timed) && (earned == start.earned ==> timed == old(timed))
        invariant old(PointsCurrent(meets)) || earned != start.earned ==> PointsCurrent(meets)
      {
        var criterion := matched[i];
        ghost var before := View();
        VisitedOnce(matched, i);
        if criterion.achievement in earned {
          ProcessedSkip(catalog, start, before, matched, i, change, asset, meets, meets);
          continue;
        }
        if !meets(criterion, value, asset) {
          ProcessedSkip(catalog, start, before, matched, i, change, asset, meets, meets);
          continue;
        }
        CreateCounter(criterion, event, meets);
        ghost var middle := View();
        GrewTransitive(rules, Some(event), Some(event), start, before, middle);
        if progress[criterion.id] >= value {
          HighEnough(meets, before, middle, criterion, change, asset, meets);
          ProcessedStep(catalog, start, before, middle, matched, i, change, asset, meets, meets);
          continue;
        }
        RemainingShrinks(catalog.achievements.Keys, start.earned, earned);
        PutCounter(criterion, value, false, false, event, meets);
        GrewTransitive(rules, Some(event), Some(event), start, middle, View());
        KeptExceptTransitive(catalog, meets, before, middle, View(), [criterion]);
        ReachedFrom(meets, before, middle, View(), criterion, change, value);
        ProcessedStep(catalog, start, before, View(), matched, i, change, asset, meets, meets);
      }
      ProcessedAll(catalog, start, View(), matched, change, asset, meets, meets);
      if earned == start.earned {
        QuietRaises(rules, Some(event), start, View(), kind, asset, value);
      }
      GrownIsDeserved(rules, Some(event), start, View());
      if kind == EARN_ACHIEVEMENT_POINTS && asset == 0 && earned == start.earned &&
         value == PointsOf(catalog.achievements, earned) % WRAP {
        PointsCatchUp(catalog, meets, start, View(), value);
      }
    }

    /** Marks the exploration criteria of a zone as met. Side conditions are not consulted here. */
    method ExploreCriteria(zone: nat, meets: Conditions)
      requires Saturated({})
      modifies this
      ensures Saturated({}) && old(earned) <= earned &&
              Grew(Rules(catalog, team, meets), Some(Explored(zone)), old(View()), View())
      ensures Deserved(Rules(catalog, team, meets), old(View()), View())
      ensures forall c :: c in catalog.criteria ==>
                if zone in catalog.exploreByZone && c.id in catalog.exploreByZone[zone]
                then Reached(meets, old(View()), View(), c, RaiseTo(1), RaiseTo(1).Apply(old(Count(progress, c.id))))
                else Kept(meets, old(View()), View(), c)
      ensures old(PointsCurrent(meets)) || earned != old(earned) ==> PointsCurrent(meets)
      // an exploration that completes nothing
      ensures timed <= old(timed)
      ensures earned == old(earned) ==>
                ExploresQuietly(Rules(catalog, team, meets), old(View()), View(), zone) &&
                timed == old(timed) - TimersDiscovered(Rules(catalog, team, meets), old(View()), zone)
    {
      hide DiscoveredIds, ExploresQuietly, TimersDiscovered, Catalog.Met, PointsOf, Grew, PointsCaughtUp, Processed,
           KeptExcept, Reached, Kept, Chained, Catalog.ById;
      var ids := if zone in catalog.exploreByZone then catalog.exploreByZone[zone] else [];
      ghost var start, rules, event := View(), Rules(catalog, team, meets), Explored(zone);
      ghost var seen: seq<Criterion> := [];
      ghost var always: Conditions := (c: Criterion, v: nat, w: nat) => true;
      GrewReflexive(rules, Some(event), start);
      ProcessedNone(catalog, start, [], RaiseTo(1), 0, meets, always);
      DiscoveredNone(earned, progress);
      for i := 0 to |ids|
        invariant Saturated({}) && start.earned <= earned && Grew(rules, Some(event), start, View())
        invariant Processed(catalog, start, View(), seen, |seen|, RaiseTo(1), 0, meets, always)
        invariant forall c :: c in seen ==> c in catalog.criteria
        invariant forall c :: c in catalog.criteria ==> (c in seen <==> c.id in ids[..i])
        invariant timed <= old(timed)
        invariant earned == start.earned ==> timed == old(timed) - DiscoveredIds(seen, earned, start.progress)
        invariant old(PointsCurrent(meets)) || earned != start.earned ==> PointsCurrent(meets)
      {
        assert ids[..i + 1] == ids[..i] + [ids[i]];
        var found := catalog.ById(ids[i]);
        catalog.FoundById(ids[i]);
        if |found| == 0 {
          continue;
        }
        var criterion := found[|found| - 1];
        ghost var before := View();
        ProcessedLonger(catalog, start, before, seen, criterion, RaiseTo(1), 0, meets, always);
        DiscoveredStep(seen, criterion, start.earned, start.progress);
        if earned == start.earned {
          QuietSoFar(rules, Some(event), start, before, seen, |seen|, RaiseTo(1), 0, always, criterion);
          assert seen[..|seen|] == seen;
        }
        seen := seen + [criterion];
        ghost var k := |seen| - 1;
        if criterion.achievement in earned {
          ProcessedSkip(catalog, start, before, seen, k, RaiseTo(1), 0, meets, always);
          continue;
        }
        CreateCounter(criterion, event, meets);
        ghost var middle := View();
        GrewTransitive(rules, Some(event), Some(event), start, before, middle);
        if progress[criterion.id] >= 1 {
          HighEnough(meets, before, middle, criterion, RaiseTo(1), 0, always);
          ProcessedStep(catalog, start, before, middle, seen, k, RaiseTo(1), 0, meets, always);
          continue;
        }
        PutCounter(criterion, 1, true, true, event, meets);
        GrewTransitive(rules, Some(event), Some(event), start, middle, View());
        KeptExceptTransitive(catalog, meets, before, middle, View(), [criterion]);
        ReachedFrom(meets, before, middle, View(), criterion, RaiseTo(1), 1);
        ProcessedStep(catalog, start, before, View(), seen, k, RaiseTo(1), 0, meets, always);
      }
      assert ids[..|ids|] == ids;
      DiscoveredAre(rules, start, zone, seen);
      ProcessedAll(catalog, start, View(), seen, RaiseTo(1), 0, meets, always);
      if earned == start.earned {
        QuietExploration(rules, Some(event), start, View(), zone);
      }
      GrownIsDeserved(rules, Some(event), start, View());
    }

    /**
     Zeroes and arms every timed criterion of an open achievement that this event starts and that is not yet running.
     */
    method StartTimed(event: nat, entry: nat)
      requires Saturated({})
      modifies this`progress, this`timed
      ensures Saturated({})
      ensures var started := StartedIds(catalog.ByTimedEvent(event, entry), earned, old(timed));
              timed == old(timed) + started && progress == Zeroed(old(progress), started)
      // spelled out: the open timed criteria of the event and the entry that were not running, at zero
      ensures forall id :: id in timed <==>
                id in old(timed) ||
                exists c :: c in catalog.criteria && c.id == id && c.startEvent == event != 0 &&
                            c.startAsset == entry && c.startTimer != 0 && c.achievement !in earned
      ensures forall id :: id in progress <==> id in old(progress) || id in timed - old(timed)
      ensures forall id :: id in progress ==> progress[id] == if id in timed - old(timed) then 0 else old(progress)[id]
    {
      hide Catalog.Met, Catalog.ByTimedEvent, Zeroed, StartedIds;
      var matched := catalog.ByTimedEvent(event, entry);
      ghost var started: set<nat> := {};
      NothingStarted(earned, timed, progress);
      for i := 0 to |matched|
        invariant started == StartedIds(matched[..i], earned, old(timed))
        invariant timed == old(timed) + started
        invariant progress == Zeroed(old(progress), started)
      {
        var criterion := matched[i];
        StartedStep(matched, i, earned, old(timed), old(progress));
        started := StartedIds(matched[..i + 1], earned, old(timed));
        if criterion.achievement in earned {
          continue;
        }
        if criterion.id in timed {
          continue;
        }
        if criterion.startTimer == 0 {
          continue;
        }
        progress := progress[criterion.id := 0];
        timed := timed + {criterion.id};
      }
      assert matched[..|matched|] == matched;
      ZeroedAt(old(progress), started);
      forall id
        ensures id in started <==>
                  id !in old(timed) &&
                  exists c :: c in catalog.criteria && c.id == id && c.startEvent == event != 0 &&
                              c.startAsset == entry && c.startTimer != 0 && c.achievement !in earned
      {
        StartedAre(matched, earned, old(timed), id);
        catalog.TimedAre(event, entry);
      }
      ZeroedIsLess(old(progress), started);
      catalog.FewerCounters(team, old(progress), progress);
    }

    /** Forgets a counter and its timer; also what the expiry of a timer does. */
    method RemoveProgress(criterion: nat)
      requires Saturated({})
      modifies this`progress, this`timed
      ensures Saturated({})
      ensures progress == old(progress) - {criterion}
      ensures timed == if criterion in old(progress) then old(timed) - {criterion} else old(timed)
    {
      hide Catalog.Met;
      if criterion !in progress {
        assert progress - {criterion} == progress;
        return;
      }
      progress := progress - {criterion};
      if criterion in timed {
        timed := timed - {criterion};
      }
      catalog.FewerCounters(team, old(progress), progress);
    }

    /** A broken condition, such as dying, costs the progress of the open, unmet criteria that depend on it. */
    method ResetByCondition(condition: nat, value: nat)
      requires Saturated({})
      modifies this`progress, this`timed
      ensures Saturated({})
      ensures var reset := ResetIds(catalog.ByCondition(condition), earned, condition, value, old(progress));
              progress == old(progress) - reset && timed == old(timed) - reset
      // spelled out: the open criteria that name the condition, with the value if one is given, and are not met
      ensures forall id :: id in progress ==> id in old(progress) && progress[id] == old(progress)[id]
      ensures forall id :: id in old(progress) && id !in progress <==>
                id in old(progress) &&
                exists c :: c in catalog.criteria && c.id == id && c.achievement !in earned && condition != 0 &&
                            (c.reqType1 == condition || c.reqType2 == condition) &&
                            (value == 0 || ((c.reqType1 == condition ==> c.reqAsset1 == value) &&
                                            (c.reqType2 == condition ==> c.reqAsset2 == value))) &&
                            (c.quantity == 0 || old(progress)[id] < c.quantity)
      ensures forall id :: id in timed <==> id in old(timed) && (id in old(progress) ==> id in progress)
    {
      hide Catalog.Met, Catalog.ByCondition, ResetIds;
      var criteria := catalog.ByCondition(condition);
      ghost var reset: set<nat> := {};
      NothingReset(earned, condition, value, progress, timed);
      for i := 0 to |criteria|
        invariant Saturated({})
        invariant reset == ResetIds(criteria[..i], earned, condition, value, old(progress))
        invariant progress == old(progress) - reset && timed == old(timed) - reset
      {
        var criterion := criteria[i];
        ResetStep(criteria, i, earned, condition, value, old(progress), old(timed));
        reset := ResetIds(criteria[..i + 1], earned, condition, value, old(progress));
        if value != 0 {
          if (criterion.reqType1 == condition && criterion.reqAsset1 != value) ||
             (criterion.reqType2 == condition && criterion.reqAsset2 != value) {
            continue;
          }
        }
        if criterion.achievement in earned {
          continue;
        }
        if criterion.id in progress {
          if criterion.quantity > 0 && progress[criterion.id] >= criterion.quantity {
            continue;
          }
          RemoveProgress(criterion.id);
        }
      }
      assert criteria[..|criteria|] == criteria;
      forall id | id in old(progress)
        ensures id in reset <==>
                  exists c :: c in catalog.criteria && c.id == id && c.achievement !in earned && condition != 0 &&
                              (c.reqType1 == condition || c.reqType2 == condition) &&
                              NamesValue(c, condition, value) && !Done(old(progress), c)
      {
        ResetAre(criteria, earned, condition, value, old(progress), id);
        catalog.ConditionAre(condition);
      }
      assert forall id :: id in progress <==> id in old(progress) && id !in reset;
    }
  }
}
