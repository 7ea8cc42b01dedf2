/** Strand of the Ancients: two timed rounds in which each side attacks once, and the verdict between them. */
module StrandOfTheAncients {

  const ALLIANCE: nat := 0
  const HORDE: nat := 1
  /** Nobody: no player is of this side. */
  const NONE: nat := 2
  const DRAW: int := 2
  const ONGOING: int := -1

  /** Durations are in nanoseconds. */
  const SECOND: nat := 1000000000
  const WARMUP_LENGTH: nat := 120 * SECOND
  const ROUND_LENGTH: nat := 600 * SECOND
  const PAUSE_LENGTH: nat := 60 * SECOND

  const MAX_HEALTH: nat := 100000
  const GREEN: nat := 0
  const YELLOW: nat := 1
  const BLUE: nat := 2
  const RED: nat := 3
  const PURPLE: nat := 4
  const ANCIENT: nat := 5
  const GATES: nat := 6

  const BEACH: nat := 0
  const DEFENDER_LAST: nat := 1
  const RIGHT: nat := 2
  const LEFT: nat := 3
  const CENTRAL: nat := 4
  const GRAVEYARDS: nat := 5

  datatype Object = LeftFlag | RightFlag | CentralFlag | TitanRelic | OtherObject
  datatype GateState = Intact | Damaged | Destroyed
  datatype Gate = Gate(state: GateState, health: nat)
  datatype Score = Score(winner: nat, time: nat)
  datatype Status = Warmup | RoundOne | SecondWarmup | RoundTwo | Finished

  /** Whatever reaches the match: time passing, damage to a gate, or a player of some side using an object. */
  datatype Event = Tick(delta: nat) | Damage(gate: nat, amount: nat) | Use(target: Object, team: nat)

  /** Each side has its own flag at a graveyard, and the relic two forms. */
  function ObjectOf(entry: nat): Object
  {
    if entry == 191308 || entry == 191307 then LeftFlag
    else if entry == 191306 || entry == 191305 then RightFlag
    else if entry == 191310 || entry == 191309 then CentralFlag
    else if entry == 192834 || entry == 192829 then TitanRelic
    else OtherObject
  }

  // ---------- What a stretch of events amounts to, read without the state machine ----------

  function Front(r: seq<Event>): seq<Event>
    requires r != []
  {
    r[..|r| - 1]
  }

  function Last(r: seq<Event>): Event
    requires r != []
  {
    r[|r| - 1]
  }

  /** The time that passed. */
  function Elapsed(r: seq<Event>): nat
  {
    if r == [] then 0 else Elapsed(Front(r)) + if Last(r).Tick? then Last(r).delta else 0
  }

  /** The damage aimed at one gate. */
  function Dealt(r: seq<Event>, gate: nat): nat
  {
    if r == [] then 0 else Dealt(Front(r), gate) + if Last(r).Damage? && Last(r).gate == gate then Last(r).amount else 0
  }

  predicate Fallen(r: seq<Event>, gate: nat)
  {
    Dealt(r, gate) >= MAX_HEALTH
  }

  predicate IsFlag(o: Object, graveyard: nat)
  {
    (o == LeftFlag && graveyard == LEFT) || (o == RightFlag && graveyard == RIGHT) ||
    (o == CentralFlag && graveyard == CENTRAL)
  }

  /** The way to a graveyard's flag is open. */
  predicate Open(r: seq<Event>, graveyard: nat)
  {
    if graveyard == CENTRAL then Fallen(r, RED) || Fallen(r, PURPLE) else Fallen(r, GREEN) || Fallen(r, BLUE)
  }

  /** An attacker used the flag after the way to it was opened. */
  predicate Captured(r: seq<Event>, graveyard: nat, attackers: nat)
  {
    r != [] && (Captured(Front(r), graveyard, attackers) || CapturedBy(Front(r), Last(r), graveyard, attackers))
  }

  predicate CapturedBy(r: seq<Event>, e: Event, graveyard: nat, attackers: nat)
  {
    e.Use? && IsFlag(e.target, graveyard) && e.team == attackers && Open(r, graveyard)
  }

  /** An attacker reaches the relic after the last two gates fell. */
  predicate Seizes(r: seq<Event>, e: Event, attackers: nat)
  {
    e.Use? && e.target == TitanRelic && e.team == attackers && Fallen(r, YELLOW) && Fallen(r, ANCIENT)
  }

  predicate Expires(r: seq<Event>, e: Event, limit: nat)
  {
    e.Tick? && Elapsed(r) + e.delta >= limit
  }

  predicate Ends(r: seq<Event>, e: Event, attackers: nat, limit: nat)
  {
    Seizes(r, e, attackers) || Expires(r, e, limit)
  }

  /** A phase that no event so far has ended. A warmup is a phase that nobody attacks in. */
  predicate Running(r: seq<Event>, attackers: nat, limit: nat)
  {
    r == [] || (Running(Front(r), attackers, limit) && !Ends(Front(r), Last(r), attackers, limit))
  }

  /** A phase that its last event ended. */
  predicate Over(r: seq<Event>, attackers: nat, limit: nat)
  {
    r != [] && Running(Front(r), attackers, limit) && Ends(Front(r), Last(r), attackers, limit)
  }

  /** The attack succeeded. */
  predicate Seized(r: seq<Event>)
  {
    r != [] && Last(r).Use?
  }

  /** The time of a round; a failed attack counts as a full round. */
  function Time(r: seq<Event>): nat
  {
    if Seized(r) then Elapsed(r) else ROUND_LENGTH
  }

  /** The side with the strictly smaller time wins. Alliance attacks first. */
  function Verdict(first: seq<Event>, second: seq<Event>): int
  {
    if Time(first) < Time(second) then ALLIANCE else if Time(second) < Time(first) then HORDE else DRAW
  }

  lemma {:induction false} RunningIsInTime(r: seq<Event>, attackers: nat, limit: nat)
    requires Running(r, attackers, limit)
    ensures Elapsed(r) < limit || Elapsed(r) == 0
  {
    if r != [] {
      RunningIsInTime(Front(r), attackers, limit);
    }
  }

  /**
   * Who wins, told by what happened. A draw is two held defences, and nothing else unless both attacks took no time
   * at all; the first attackers win by being the only ones to succeed, the second by beating their time.
   */
  lemma WhoWins(first: seq<Event>, second: seq<Event>)
    requires Over(first, ALLIANCE, ROUND_LENGTH) && Over(second, HORDE, Time(first))
    ensures Verdict(first, second) == DRAW <==>
              (!Seized(first) && !Seized(second)) || (Seized(first) && Seized(second) && Elapsed(first) == 0)
    ensures Verdict(first, second) == ALLIANCE <==> Seized(first) && !Seized(second)
    ensures Verdict(first, second) == HORDE <==> Seized(second) && (Seized(first) ==> Elapsed(second) < Elapsed(first))
    ensures Seized(first) && Elapsed(first) > 0 && Seized(second) ==> Elapsed(second) < Elapsed(first)
  {
    RunningIsInTime(Front(first), ALLIANCE, ROUND_LENGTH);
    RunningIsInTime(Front(second), HORDE, Time(first));
  }

  lemma {:induction false} DealtGrows(r: seq<Event>, k: nat, gate: nat)
    requires k <= |r|
    ensures Dealt(r[..k], gate) <= Dealt(r, gate)
  {
    if k == |r| {
      assert r[..k] == r;
    } else {
      assert Front(r)[..k] == r[..k];
      DealtGrows(Front(r), k, gate);
    }
  }

  /** A graveyard the attackers hold means that a gate on the way to it fell in this round. */
  lemma {:induction false} CapturedIsOpen(r: seq<Event>, graveyard: nat, attackers: nat)
    requires Captured(r, graveyard, attackers)
    ensures Open(r, graveyard)
  {
    if Captured(Front(r), graveyard, attackers) {
      CapturedIsOpen(Front(r), graveyard, attackers);
    }
    forall g ensures Dealt(Front(r), g) <= Dealt(r, g) {
      DealtGrows(r, |r| - 1, g);
    }
  }

  // ---------- The history of a match ----------

  datatype History = History(warmup: seq<Event>, first: seq<Event>, pause: seq<Event>, second: seq<Event>,
                             after: seq<Event>)

  function All(h: History): seq<Event>
  {
    h.warmup + h.first + h.pause + h.second + h.after
  }

  function Rank(s: Status): nat
  {
    match s
    case Warmup => 1
    case RoundOne => 2
    case SecondWarmup => 3
    case RoundTwo => 4
    case Finished => 5
  }

  predicate Phase(r: seq<Event>, attackers: nat, limit: nat, index: nat, rank: nat)
  {
    if rank < index then r == [] else if rank == index then Running(r, attackers, limit) else Over(r, attackers, limit)
  }

  /** The match has come as far as `status`: the phases before are over, this one is running, the others are empty. */
  predicate Fits(h: History, status: Status)
  {
    Phase(h.warmup, NONE, WARMUP_LENGTH, 1, Rank(status)) &&
    Phase(h.first, ALLIANCE, ROUND_LENGTH, 2, Rank(status)) &&
    Phase(h.pause, NONE, PAUSE_LENGTH, 3, Rank(status)) &&
    Phase(h.second, HORDE, Time(h.first), 4, Rank(status)) &&
    (status != Finished ==> h.after == [])
  }

  lemma {:induction false} RunningPrefix(r: seq<Event>, k: nat, attackers: nat, limit: nat)
    requires Running(r, attackers, limit) && k <= |r|
    ensures Running(r[..k], attackers, limit) && !Over(r[..k], attackers, limit)
  {
    if k == |r| {
      assert r[..k] == r;
    } else {
      assert Front(r)[..k] == r[..k];
      RunningPrefix(Front(r), k, attackers, limit);
    }
  }

  /** Where a phase ends is read off the events alone. */
  lemma OverIsUnique(a: seq<Event>, x: seq<Event>, b: seq<Event>, y: seq<Event>, attackers: nat, limit: nat)
    requires a + x == b + y && |a| <= |b|
    requires Over(a, attackers, limit) && (Over(b, attackers, limit) || Running(b, attackers, limit))
    ensures a == b && x == y && Over(b, attackers, limit)
  {
    assert a == (a + x)[..|a|] == (b + y)[..|a|] == b[..|a|];
    if Running(b, attackers, limit) {
      RunningPrefix(b, |a|, attackers, limit);
    } else if |a| < |b| {
      assert b[..|a|] == Front(b)[..|a|];
      RunningPrefix(Front(b), |a|, attackers, limit);
    }
    assert x == (a + x)[|a|..] && y == (b + y)[|b|..];
  }

  /** How far a match has come, and where its phases ended, is fixed by the events alone. */
  lemma HistoryIsUnique(g: History, s: Status, h: History, t: Status)
    requires Fits(g, s) && Fits(h, t) && All(g) == All(h)
    ensures g == h && s == t
  {
    hide Running, Over;
    var g1, h1 := g.pause + g.second + g.after, h.pause + h.second + h.after;
    assert All(g) == g.warmup + (g.first + g1) && All(h) == h.warmup + (h.first + h1);
    SamePhase(g.warmup, g.first + g1, h.warmup, h.first + h1, NONE, WARMUP_LENGTH, 1, Rank(s), Rank(t));
    if Rank(s) > 1 {
      SamePhase(g.first, g1, h.first, h1, ALLIANCE, ROUND_LENGTH, 2, Rank(s), Rank(t));
      if Rank(s) > 2 {
        SecondHalfIsUnique(g, s, h, t);
      }
    }
  }

  lemma SecondHalfIsUnique(g: History, s: Status, h: History, t: Status)
    requires Fits(g, s) && Fits(h, t) && Rank(s) > 2 && Rank(t) > 2 && g.first == h.first
    requires g.pause + g.second + g.after == h.pause + h.second + h.after
    ensures g.pause == h.pause && g.second == h.second && g.after == h.after && s == t
  {
    hide Running, Over, Time;
    var g2, h2 := g.second + g.after, h.second + h.after;
    assert g.pause + g.second + g.after == g.pause + g2 && h.pause + h.second + h.after == h.pause + h2;
    SamePhase(g.pause, g2, h.pause, h2, NONE, PAUSE_LENGTH, 3, Rank(s), Rank(t));
    if Rank(s) > 3 {
      SamePhase(g.second, g.after, h.second, h.after, HORDE, Time(g.first), 4, Rank(s), Rank(t));
    }
  }

  lemma SamePhase(a: seq<Event>, x: seq<Event>, b: seq<Event>, y: seq<Event>, attackers: nat, limit: nat, index: nat,
                  rank: nat, other: nat)
    requires Phase(a, attackers, limit, index, rank) && Phase(b, attackers, limit, index, other)
    requires rank <= index ==> x == []
    requires other <= index ==> y == []
    requires rank >= index && other >= index && a + x == b + y
    ensures a == b && x == y && (rank == index <==> other == index)
  {
    assert rank == index ==> a + x == a;
    assert other == index ==> b + y == b;
    if rank > index && |a| <= |b| {
      OverIsUnique(a, x, b, y, attackers, limit);
    } else if other > index && |b| <= |a| {
      OverIsUnique(b, y, a, x, attackers, limit);
    }
  }

  /** The part of the history that the next event joins. */
  function Log(h: History, s: Status): seq<Event>
  {
    match s
    case Warmup => h.warmup
    case RoundOne => h.first
    case SecondWarmup => h.pause
    case RoundTwo => h.second
    case Finished => h.after
  }

  function Add(h: History, s: Status, e: Event): History
  {
    match s
    case Warmup => h.(warmup := h.warmup + [e])
    case RoundOne => h.(first := h.first + [e])
    case SecondWarmup => h.(pause := h.pause + [e])
    case RoundTwo => h.(second := h.second + [e])
    case Finished => h.(after := h.after + [e])
  }

  /** Whether the next event ends the phase. */
  predicate EndsPhase(h: History, s: Status, e: Event)
  {
    match s
    case Warmup => Ends(h.warmup, e, NONE, WARMUP_LENGTH)
    case RoundOne => Ends(h.first, e, ALLIANCE, ROUND_LENGTH)
    case SecondWarmup => Ends(h.pause, e, NONE, PAUSE_LENGTH)
    case RoundTwo => Ends(h.second, e, HORDE, Time(h.first))
    case Finished => false
  }

  function Next(s: Status): Status
  {
    match s
    case Warmup => RoundOne
    case RoundOne => SecondWarmup
    case SecondWarmup => RoundTwo
    case _ => Finished
  }

  lemma FrontOfAppended(r: seq<Event>, e: Event)
    ensures Front(r + [e]) == r && Last(r + [e]) == e
  {
  }

  lemma AddFits(h: History, s: Status, e: Event)
    requires Fits(h, s)
    ensures All(Add(h, s, e)) == All(h) + [e]
    ensures Fits(Add(h, s, e), if EndsPhase(h, s, e) then Next(s) else s)
  {
    hide Elapsed, Seizes, Expires;
    FrontOfAppended(Log(h, s), e);
  }

  // ---------- The match ----------

  function Other(team: nat): nat
  {
    if team == ALLIANCE then HORDE else ALLIANCE
  }

  function GateAfter(dealt: nat): Gate
  {
    if dealt >= MAX_HEALTH then Gate(Destroyed, 0)
    else Gate(if MAX_HEALTH - dealt <= MAX_HEALTH / 2 then Damaged else Intact, MAX_HEALTH - dealt)
  }

  /** The events that count for gates and graveyards: those of the round last begun, and none between rounds. */
  function RoundLog(h: History, s: Status): seq<Event>
  {
    match s
    case RoundOne => h.first
    case RoundTwo => h.second
    case Finished => h.second
    case _ => []
  }

  function ClockLog(h: History, s: Status): seq<Event>
  {
    if s == Finished then h.second else Log(h, s)
  }

  function Attacking(s: Status): nat
  {
    if s == Warmup || s == RoundOne then ALLIANCE else HORDE
  }

  datatype Snapshot = Snapshot(status: Status, attackers: nat, totalTime: nat, endRoundTimer: nat,
                               gates: seq<Gate>, graveyards: seq<nat>, scores: seq<Score>, winner: int)

  predicate ClockShows(v: Snapshot, h: History)
  {
    v.attackers == Attacking(v.status) && v.totalTime == Elapsed(ClockLog(h, v.status)) &&
    (v.status == Warmup || v.status == RoundOne ==> v.endRoundTimer == ROUND_LENGTH) &&
    (v.status == RoundTwo || v.status == Finished ==> v.endRoundTimer == Time(h.first))
  }

  predicate GatesShow(gates: seq<Gate>, r: seq<Event>)
  {
    |gates| == GATES && forall g :: 0 <= g < GATES ==> gates[g] == GateAfter(Dealt(r, g))
  }

  predicate GraveyardsShow(graveyards: seq<nat>, r: seq<Event>, attackers: nat)
  {
    |graveyards| == GRAVEYARDS && graveyards[BEACH] == attackers && graveyards[DEFENDER_LAST] == Other(attackers) &&
    forall y :: RIGHT <= y <= CENTRAL ==> graveyards[y] == if Captured(r, y, attackers) then attackers
                                                           else Other(attackers)
  }

  function ScoreOf(r: seq<Event>, attackers: nat): Score
  {
    Score(if Seized(r) then attackers else Other(attackers), Time(r))
  }

  predicate ScoresShow(v: Snapshot, h: History)
  {
    |v.scores| == 2 && (Rank(v.status) >= 3 ==> v.scores[0] == ScoreOf(h.first, ALLIANCE)) &&
    (v.status == Finished ==> v.scores[1] == ScoreOf(h.second, HORDE)) &&
    v.winner == if v.status == Finished then Verdict(h.first, h.second) else ONGOING
  }

  /** Every field is what the history says it is. */
  predicate Shows(v: Snapshot, h: History)
  {
    Fits(h, v.status) && ClockShows(v, h) && GatesShow(v.gates, RoundLog(h, v.status)) &&
    GraveyardsShow(v.graveyards, RoundLog(h, v.status), v.attackers) && ScoresShow(v, h)
  }

  lemma LogStep(r: seq<Event>, e: Event)
    ensures Elapsed(r + [e]) == Elapsed(r) + if e.Tick? then e.delta else 0
    ensures forall g :: Dealt(r + [e], g) == Dealt(r, g) + if e.Damage? && e.gate == g then e.amount else 0
    ensures forall y, a :: Captured(r + [e], y, a) == (Captured(r, y, a) || CapturedBy(r, e, y, a))
    ensures Seized(r + [e]) == e.Use?
  {
  }

  /** A gate's state always matches its health. */
  lemma GateBands(gates: seq<Gate>, r: seq<Event>, g: nat)
    requires GatesShow(gates, r) && g < GATES
    ensures gates[g].health <= MAX_HEALTH
    ensures gates[g].state == Destroyed <==> gates[g].health == 0
    ensures gates[g].state == Intact <==> 2 * gates[g].health > MAX_HEALTH
  {
  }

  /** A capturable graveyard in the attackers' hands means that a gate on the way to it was destroyed in this round. */
  lemma HeldGraveyardIsOpen(gates: seq<Gate>, graveyards: seq<nat>, r: seq<Event>, attackers: nat, y: nat)
    requires GatesShow(gates, r) && GraveyardsShow(graveyards, r, attackers) && RIGHT <= y <= CENTRAL &&
             attackers <= HORDE
    requires graveyards[y] == attackers
    ensures y == CENTRAL ==> gates[RED].state == Destroyed || gates[PURPLE].state == Destroyed
    ensures y != CENTRAL ==> gates[GREEN].state == Destroyed || gates[BLUE].state == Destroyed
  {
    CapturedIsOpen(r, y, attackers);
  }

  // ---------- One event, on values ----------

  /** What the clock and the scores say at each stage. */
  lemma ClockFacts(v: Snapshot, h: History)
    requires Shows(v, h)
    ensures v.totalTime == Elapsed(ClockLog(h, v.status)) && v.attackers == Attacking(v.status) && |v.scores| == 2
    ensures |v.gates| == GATES && |v.graveyards| == GRAVEYARDS
    ensures v.status == Warmup || v.status == RoundOne ==> v.endRoundTimer == ROUND_LENGTH
    ensures v.status == RoundTwo ==> v.endRoundTimer == Time(h.first)
    ensures Rank(v.status) >= 3 ==> v.scores[0] == ScoreOf(h.first, ALLIANCE) && Time(h.first) <= ROUND_LENGTH
    ensures v.winner >= 0 <==> v.status == Finished
    ensures v.status != Finished ==> v.winner == ONGOING
  {
    hide Dealt, Captured, Running;
    if Rank(v.status) >= 3 {
      RunningIsInTime(Front(h.first), ALLIANCE, ROUND_LENGTH);
    }
  }

  /** A tick that ends nothing. */
  lemma ClockRuns(v: Snapshot, h: History, delta: nat, timer: nat)
    requires Shows(v, h) && !EndsPhase(h, v.status, Tick(delta)) && v.status != Finished
    requires v.status == SecondWarmup || timer == v.endRoundTimer
    ensures Shows(v.(totalTime := v.totalTime + delta, endRoundTimer := timer), Add(h, v.status, Tick(delta)))
  {
    hide Dealt, Captured, Running, Elapsed;
    AddFits(h, v.status, Tick(delta));
    LogStep(ClockLog(h, v.status), Tick(delta));
  }

  /** The phase to come has no events yet, and no time on its clock. */
  lemma NextIsEmpty(h: History, s: Status)
    requires Fits(h, s) && Rank(s) < 4
    ensures Log(h, Next(s)) == [] && Elapsed([]) == 0
  {
  }

  lemma RoundBegins(v: Snapshot, h: History, delta: nat, timer: nat)
    requires Shows(v, h) && EndsPhase(h, v.status, Tick(delta))
    requires v.status == Warmup || v.status == SecondWarmup
    requires timer == if v.status == Warmup then ROUND_LENGTH else Time(h.first)
    ensures Shows(v.(status := Next(v.status), totalTime := 0, endRoundTimer := timer), Add(h, v.status, Tick(delta)))
  {
    hide Fits, GatesShow, GraveyardsShow, Elapsed, EndsPhase, ScoreOf, Verdict;
    NextIsEmpty(h, v.status);
    AddFits(h, v.status, Tick(delta));
  }

  lemma RoundOneEnds(v: Snapshot, h: History, e: Event, gates: seq<Gate>, graveyards: seq<nat>)
    requires Shows(v, h) && v.status == RoundOne && EndsPhase(h, RoundOne, e)
    requires GatesShow(gates, []) && GraveyardsShow(graveyards, [], HORDE)
    ensures Shows(v.(status := SecondWarmup, attackers := HORDE, totalTime := 0, gates := gates,
                     graveyards := graveyards,
                     scores := v.scores[0 := ScoreOf(h.first + [e], ALLIANCE)]), Add(h, RoundOne, e))
  {
    hide Fits, GatesShow, GraveyardsShow, Elapsed, EndsPhase, ScoreOf, Verdict;
    NextIsEmpty(h, RoundOne);
    AddFits(h, RoundOne, e);
  }

  lemma RoundTwoEnds(v: Snapshot, h: History, e: Event)
    requires Shows(v, h) && v.status == RoundTwo && EndsPhase(h, RoundTwo, e)
    ensures Shows(v.(status := Finished, totalTime := Elapsed(h.second + [e]),
                     scores := v.scores[1 := ScoreOf(h.second + [e], HORDE)],
                     winner := Verdict(h.first, h.second + [e])), Add(h, RoundTwo, e))
  {
    hide Dealt, Captured, Running, Elapsed;
    AddFits(h, RoundTwo, e);
    LogStep(h.second, e);
  }

  lemma MatchStaysOver(v: Snapshot, h: History, e: Event)
    requires Shows(v, h) && v.status == Finished
    ensures Shows(v, Add(h, Finished, e))
  {
  }

  lemma EventJoins(v: Snapshot, h: History, e: Event)
    requires Shows(v, h)
    ensures All(Add(h, v.status, e)) == All(h) + [e]
  {
  }

  /** An event that neither moves the clock nor ends the phase changes at most a gate or a graveyard. */
  lemma ObjectsChange(v: Snapshot, h: History, e: Event, gates: seq<Gate>, graveyards: seq<nat>)
    requires Shows(v, h) && !e.Tick? && !EndsPhase(h, v.status, e) && v.status != Finished
    requires GatesShow(gates, RoundLog(Add(h, v.status, e), v.status))
    requires GraveyardsShow(graveyards, RoundLog(Add(h, v.status, e), v.status), v.attackers)
    ensures Shows(v.(gates := gates, graveyards := graveyards), Add(h, v.status, e))
  {
  }

  /** Between rounds nothing can be damaged, captured or seized. */
  lemma BetweenRounds(v: Snapshot, h: History, e: Event)
    requires Shows(v, h) && (v.status == Warmup || v.status == SecondWarmup) && !e.Tick?
    requires e.Use? ==> e.team != NONE
    ensures Shows(v, Add(h, v.status, e))
  {
    ObjectsChange(v, h, e, v.gates, v.graveyards);
  }

  lemma GateHit(gates: seq<Gate>, graveyards: seq<nat>, r: seq<Event>, attackers: nat, gate: nat, amount: nat,
                hit: Gate)
    requires GatesShow(gates, r) && GraveyardsShow(graveyards, r, attackers)
    requires gate < GATES ==> hit == GateAfter(Dealt(r, gate) + amount)
    ensures GatesShow(if gate < GATES then gates[gate := hit] else gates, r + [Damage(gate, amount)])
    ensures GraveyardsShow(graveyards, r + [Damage(gate, amount)], attackers)
  {
    hide Dealt, Captured, GateAfter;
    LogStep(r, Damage(gate, amount));
  }

  lemma ObjectUsed(gates: seq<Gate>, graveyards: seq<nat>, r: seq<Event>, attackers: nat, e: Event)
    requires GatesShow(gates, r) && GraveyardsShow(graveyards, r, attackers) && e.Use?
    ensures GatesShow(gates, r + [e])
    ensures var after := if FlagOpen(r, e, attackers) then graveyards[FlagOf(e.target) := attackers] else graveyards;
            GraveyardsShow(after, r + [e], attackers)
  {
  }

  /**
   What a hit on a gate does to the picture; a fallen gate, a gate that is not there and a pause leave it as it is.
   */
  lemma DamageShows(v: Snapshot, h: History, gate: nat, amount: nat, hit: Gate)
    requires Shows(v, h)
    requires gate < GATES && (v.status == RoundOne || v.status == RoundTwo) ==>
               hit == GateAfter(Dealt(RoundLog(h, v.status), gate) + amount)
    ensures var counts := gate < GATES && (v.status == RoundOne || v.status == RoundTwo);
            Shows(if counts then v.(gates := v.gates[gate := hit]) else v, Add(h, v.status, Damage(gate, amount)))
  {
    hide Dealt, Captured, Running, Elapsed, GatesShow, GraveyardsShow, GateAfter, Open;
    ClockFacts(v, h);
    var e := Damage(gate, amount);
    if v.status == Finished {
      MatchStaysOver(v, h, e);
    } else if v.status == Warmup || v.status == SecondWarmup {
      BetweenRounds(v, h, e);
    } else {
      GateHit(v.gates, v.graveyards, RoundLog(h, v.status), v.attackers, gate, amount, hit);
      ObjectsChange(v, h, e, if gate < GATES then v.gates[gate := hit] else v.gates, v.graveyards);
    }
  }

  /** What using an object does to the picture when it does not seize the relic. */
  lemma UseShows(v: Snapshot, h: History, e: Event)
    requires Shows(v, h) && e.Use? && (e.team == ALLIANCE || e.team == HORDE) && !EndsPhase(h, v.status, e)
    ensures v.status == Finished ==> Shows(v, Add(h, v.status, e))
    ensures v.status != Finished && FlagOpen(RoundLog(h, v.status), e, v.attackers) ==>
              |v.graveyards| == GRAVEYARDS &&
              Shows(v.(graveyards := v.graveyards[FlagOf(e.target) := v.attackers]), Add(h, v.status, e))
    ensures v.status != Finished && !FlagOpen(RoundLog(h, v.status), e, v.attackers) ==> Shows(v, Add(h, v.status, e))
  {
    hide Dealt, Captured, Running, Elapsed, GatesShow, GraveyardsShow, GateAfter;
    ClockFacts(v, h);
    if v.status == Finished {
      MatchStaysOver(v, h, e);
    } else if v.status == Warmup || v.status == SecondWarmup {
      NothingDealt();
      BetweenRounds(v, h, e);
    } else {
      ObjectUsed(v.gates, v.graveyards, RoundLog(h, v.status), v.attackers, e);
      ObjectsChange(v, h, e, v.gates,
                    if FlagOpen(RoundLog(h, v.status), e, v.attackers)
                    then v.graveyards[FlagOf(e.target) := v.attackers] else v.graveyards);
    }
  }

  lemma NothingDealt()
    ensures forall g :: Dealt([], g) == 0
  {
  }

  /** The gates show exactly what the round opened. */
  lemma WhatIsOpen(v: Snapshot, h: History)
    requires Shows(v, h)
    ensures |v.gates| == GATES
    ensures forall g :: 0 <= g < GATES ==> (v.gates[g].state == Destroyed <==> Fallen(RoundLog(h, v.status), g))
  {
  }

  lemma GateFact(v: Snapshot, h: History, gate: nat)
    requires Shows(v, h) && gate < GATES
    ensures gate < |v.gates| && v.gates[gate] == GateAfter(Dealt(RoundLog(h, v.status), gate))
  {
  }

  /** The graveyard that a flag belongs to. */
  function FlagOf(o: Object): (y: nat)
    requires o == LeftFlag || o == RightFlag || o == CentralFlag
    ensures IsFlag(o, y) && RIGHT <= y <= CENTRAL
  {
    match o
    case LeftFlag => LEFT
    case RightFlag => RIGHT
    case CentralFlag => CENTRAL
  }

  predicate FlagOpen(r: seq<Event>, e: Event, attackers: nat)
    requires e.Use?
  {
    (e.target == LeftFlag || e.target == RightFlag || e.target == CentralFlag) && e.team == attackers &&
    Open(r, FlagOf(e.target))
  }

  lemma SecondRoundIsShorter(v: Snapshot, h: History)
    requires Shows(v, h) && v.status == RoundTwo
    ensures Elapsed(h.second) < ROUND_LENGTH
  {
    hide Dealt, Captured;
    RunningIsInTime(h.second, HORDE, Time(h.first));
    RunningIsInTime(Front(h.first), ALLIANCE, ROUND_LENGTH);
  }

  lemma RelicEndsRound(v: Snapshot, h: History, e: Event)
    requires Shows(v, h) && (v.status == RoundOne || v.status == RoundTwo) && e.Use? && e.target == TitanRelic &&
             e.team == v.attackers
    requires Fallen(RoundLog(h, v.status), YELLOW) && Fallen(RoundLog(h, v.status), ANCIENT)
    ensures EndsPhase(h, v.status, e)
  {
  }

  lemma RelicStays(v: Snapshot, h: History, e: Event)
    requires Shows(v, h) && e.Use? && e.team != NONE
    requires !(e.target == TitanRelic && e.team == v.attackers && (v.status == RoundOne || v.status == RoundTwo) &&
               Fallen(RoundLog(h, v.status), YELLOW) && Fallen(RoundLog(h, v.status), ANCIENT))
    ensures !EndsPhase(h, v.status, e)
  {
  }

  // ---------- One event, on the fields ----------

  predicate Down(v: Snapshot, gate: nat)
  {
    gate < |v.gates| && v.gates[gate].state == Destroyed
  }

  /** The first round closes with sides swapped and everything reset, the second with the verdict on the two times. */
  ghost predicate RoundClosed(v: Snapshot, score: Score, w: Snapshot)
    requires |v.scores| == 2
  {
    if v.status == RoundOne then
      var other := if v.attackers == 0 then 1 else 0;
      && |w.gates| == 6 && (forall g :: 0 <= g < 6 ==> w.gates[g] == Gate(Intact, 100000))
      && w == v.(status := SecondWarmup, attackers := other, totalTime := 0, gates := w.gates,
                 graveyards := [other, v.attackers, v.attackers, v.attackers, v.attackers],
                 scores := v.scores[0 := score])
    else
      w == v.(status := Finished, scores := v.scores[1 := score],
              winner := if v.scores[0].time == score.time then 2
                        else if v.scores[0].time < score.time then v.scores[0].winner else score.winner)
  }

  /**
   What using an object does: a flag changes its graveyard, the relic closes a round, and nothing else does anything.
   */
  ghost predicate UsedAs(v: Snapshot, entry: nat, team: nat, w: Snapshot)
    requires |v.scores| == 2 && |v.graveyards| == 5
  {
    if v.winner >= 0 || team != v.attackers then w == v
    else if entry == 191307 || entry == 191308 then
      w == if Down(v, 0) || Down(v, 2) then v.(graveyards := v.graveyards[3 := team]) else v
    else if entry == 191305 || entry == 191306 then
      w == if Down(v, 0) || Down(v, 2) then v.(graveyards := v.graveyards[2 := team]) else v
    else if entry == 191309 || entry == 191310 then
      w == if Down(v, 3) || Down(v, 4) then v.(graveyards := v.graveyards[4 := team]) else v
    else if (entry == 192829 || entry == 192834) && Down(v, 1) && Down(v, 5) &&
            (v.status == RoundOne || v.status == RoundTwo) then
      RoundClosed(v, Score(team, v.totalTime), w)
    else w == v
  }

  /**
   What time does: two minutes of warmup, ten of a round, one of pause, and a second round no longer than the first.
   */
  ghost predicate TickedAs(v: Snapshot, delta: nat, w: Snapshot)
    requires |v.scores| == 2
  {
    var second, t := 1000000000, v.totalTime + delta;
    var defenders, u := if v.attackers == 0 then 1 else 0, v.(totalTime := t);
    if v.winner >= 0 then w == v
    else match v.status
      case Warmup =>
        w == (if t >= 120 * second then u.(status := RoundOne, totalTime := 0) else u).(endRoundTimer := 600 * second)
      case RoundOne => if t >= 600 * second then RoundClosed(u, Score(defenders, 600 * second), w) else w == u
      case SecondWarmup =>
        var limit := if v.scores[0].time < 600 * second then v.scores[0].time else 600 * second;
        w == (if t >= 60 * second then u.(status := RoundTwo, totalTime := 0) else u).(endRoundTimer := limit)
      case RoundTwo => if t >= v.endRoundTimer then RoundClosed(u, Score(defenders, 600 * second), w) else w == u
      case Finished => w == u
  }

  /** What damage does: it counts in a round against a standing gate, which shows it from half its health down. */
  ghost predicate HitAs(v: Snapshot, gate: nat, damage: nat, w: Snapshot)
    requires |v.gates| == 6
  {
    if gate >= 6 || v.winner >= 0 || (v.status != RoundOne && v.status != RoundTwo) || Down(v, gate) then w == v
    else
      var health := v.gates[gate].health;
      var rest := if damage >= health then 0 else health - damage;
      var state := if rest == 0 then Destroyed else if rest <= 50000 then Damaged else Intact;
      w == v.(gates := v.gates[gate := Gate(state, rest)])
  }

  lemma ObjectMeans(entry: nat)
    ensures ObjectOf(entry) == if entry == 191307 || entry == 191308 then LeftFlag
                               else if entry == 191305 || entry == 191306 then RightFlag
                               else if entry == 191309 || entry == 191310 then CentralFlag
                               else if entry == 192829 || entry == 192834 then TitanRelic else OtherObject
  {
  }

  lemma SizesShow(v: Snapshot, h: History)
    requires Shows(v, h)
    ensures |v.gates| == 6 && |v.graveyards| == 5 && |v.scores| == 2 && (v.attackers == 0 || v.attackers == 1)
    ensures forall g :: 0 <= g < 6 ==>
              (v.gates[g].state == Destroyed <==> v.gates[g].health == 0) &&
              (v.gates[g].state == Intact <==> v.gates[g].health > 50000)
  {
    hide Dealt, Captured, Running, Elapsed;
  }

  class Match {
    var Status: Status
    var Attackers: nat
    var TotalTime: nat
    var EndRoundTimer: nat
    const Gates: array<Gate>
    const Graveyards: array<nat>
    const RoundScores: array<Score>
    var Winner: int
    ghost var history: History

    ghost function View(): Snapshot
      reads this, Gates, Graveyards, RoundScores
    {
      Snapshot(Status, Attackers, TotalTime, EndRoundTimer, Gates[..], Graveyards[..], RoundScores[..], Winner)
    }

    ghost predicate Valid()
      reads this, Gates, Graveyards, RoundScores
    {
      Shows(View(), history)
    }

    constructor ()
      ensures Valid() && All(history) == [] && Status == Warmup
    {
      Status := Warmup;
      Attackers := ALLIANCE;
      TotalTime := 0;
      EndRoundTimer := ROUND_LENGTH;
      Gates := new Gate[GATES];
      Graveyards := new nat[GRAVEYARDS];
      RoundScores := new Score[2](_ => Score(0, 0));
      Winner := ONGOING;
      history := History([], [], [], [], []);
      new;
      ResetObjects();
    }

    /** All gates stand, and every graveyard but the beach is the defenders'. */
    method ResetObjects()
      requires Gates.Length == GATES && Graveyards.Length == GRAVEYARDS
      modifies Gates, Graveyards
      ensures GatesShow(Gates[..], []) && GraveyardsShow(Graveyards[..], [], Attackers)
      ensures forall g :: 0 <= g < 6 ==> Gates[g] == Gate(Intact, 100000)
      ensures var d := if Attackers == 0 then 1 else 0; Graveyards[..] == [Attackers, d, d, d, d]
    {
      for i := 0 to GATES
        invariant forall k :: 0 <= k < i ==> Gates[k] == Gate(Intact, MAX_HEALTH)
      {
        Gates[i] := Gate(Intact, MAX_HEALTH);
      }
      var defenders := Defenders();
      Graveyards[BEACH] := Attackers;
      Graveyards[DEFENDER_LAST] := defenders;
      Graveyards[RIGHT] := defenders;
      Graveyards[LEFT] := defenders;
      Graveyards[CENTRAL] := defenders;
    }

    function Defenders(): nat
      reads this
    {
      if Attackers == ALLIANCE then HORDE else ALLIANCE
    }

    method EndMatch(winner: int)
      requires Winner == ONGOING
      modifies this`Winner, this`Status
      ensures Winner == winner && Status == Finished
    {
      Winner := winner;
      Status := Finished;
    }

    /** Time passes. */
    method TickSA(delta: nat)
      requires Valid()
      modifies this, Gates, Graveyards, RoundScores
      ensures Valid() && All(history) == old(All(history)) + [Tick(delta)]
      ensures |old(View()).scores| == 2 && TickedAs(old(View()), delta, View())
    {
      hide Fits, ClockShows, GatesShow, GraveyardsShow, ScoresShow, Shows, Elapsed;
      ghost var v, h := View(), history;
      ClockFacts(v, h);
      SizesShow(v, h);
      EventJoins(v, h, Tick(delta));
      LogStep(ClockLog(h, v.status), Tick(delta));
      history := Add(h, v.status, Tick(delta));
      if Winner >= 0 {
        MatchStaysOver(v, h, Tick(delta));
        return;
      }
      TotalTime := TotalTime + delta;
      match Status {
        case Warmup =>
          EndRoundTimer := ROUND_LENGTH;
          if TotalTime >= WARMUP_LENGTH {
            Status := RoundOne;
            TotalTime := 0;
            RoundBegins(v, h, delta, EndRoundTimer);
          } else {
            ClockRuns(v, h, delta, EndRoundTimer);
          }
        case SecondWarmup =>
          EndRoundTimer := if RoundScores[0].time < ROUND_LENGTH then RoundScores[0].time else ROUND_LENGTH;
          if TotalTime >= PAUSE_LENGTH {
            Status := RoundTwo;
            TotalTime := 0;
            RoundBegins(v, h, delta, EndRoundTimer);
          } else {
            ClockRuns(v, h, delta, EndRoundTimer);
          }
        case RoundOne =>
          if TotalTime >= ROUND_LENGTH {
            RoundScores[0] := Score(Defenders(), ROUND_LENGTH);
            Attackers := Defenders();
            Status := SecondWarmup;
            TotalTime := 0;
            ResetObjects();
            RoundOneEnds(v, h, Tick(delta), Gates[..], Graveyards[..]);
          } else {
            ClockRuns(v, h, delta, EndRoundTimer);
          }
        case RoundTwo =>
          if TotalTime >= EndRoundTimer {
            RoundScores[1] := Score(Defenders(), ROUND_LENGTH);
            DecideByTime(h.first, h.second + [Tick(delta)]);
            RoundTwoEnds(v, h, Tick(delta));
          } else {
            ClockRuns(v, h, delta, EndRoundTimer);
          }
        case Finished =>
      }
    }

    /** The side with the smaller time wins; the same comparison closes the second round either way it ends. */
    method DecideByTime(ghost first: seq<Event>, ghost second: seq<Event>)
      requires RoundScores.Length == 2 && Winner == ONGOING
      requires RoundScores[0] == ScoreOf(first, ALLIANCE) && RoundScores[1] == ScoreOf(second, HORDE)
      requires Time(first) <= ROUND_LENGTH && (Seized(second) ==> Elapsed(second) < ROUND_LENGTH)
      modifies this`Winner, this`Status
      ensures Winner == Verdict(first, second) && Status == Finished
      ensures var a, b := RoundScores[0], RoundScores[1];
              Winner == if a.time == b.time then 2 else if a.time < b.time then a.winner else b.winner
    {
      if RoundScores[0].time == RoundScores[1].time {
        EndMatch(DRAW);
      } else if RoundScores[0].time < RoundScores[1].time {
        EndMatch(RoundScores[0].winner);
      } else {
        EndMatch(RoundScores[1].winner);
      }
    }
  
    /** Damage to a gate counts only while a round is on and the gate stands. */
    method DamageGate(gate: nat, damage: nat)
      requires Valid()
      modifies this`history, Gates
      ensures Valid() && All(history) == old(All(history)) + [Damage(gate, damage)]
      ensures |old(View()).gates| == 6 && HitAs(old(View()), gate, damage, View())
    {
      hide Shows, Add, Dealt, All, RoundLog;
      ghost var v, h := View(), history;
      ClockFacts(v, h);
      SizesShow(v, h);
      EventJoins(v, h, Damage(gate, damage));
      history := Add(h, v.status, Damage(gate, damage));
      if gate >= GATES || Winner >= 0 || (Status != RoundOne && Status != RoundTwo) {
        DamageShows(v, h, gate, damage, Gate(Intact, 0));
        return;
      }
      GateFact(v, h, gate);
      ghost var hit := GateAfter(Dealt(RoundLog(h, v.status), gate) + damage);
      DamageShows(v, h, gate, damage, hit);
      if Gates[gate].state == Destroyed {
        assert v.gates[gate := hit] == v.gates;
        return;
      }
      if damage >= Gates[gate].health {
        Gates[gate] := Gates[gate].(health := 0);
      } else {
        Gates[gate] := Gates[gate].(health := Gates[gate].health - damage);
      }
      if Gates[gate].health <= MAX_HEALTH / 2 && Gates[gate].health > 0 && Gates[gate].state == Intact {
        Gates[gate] := Gates[gate].(state := Damaged);
      }
      if Gates[gate].health == 0 && Gates[gate].state != Destroyed {
        Gates[gate] := Gates[gate].(state := Destroyed);
      }
      assert Gates[gate] == hit;
      assert Gates[..] == v.gates[gate := hit];
    }
  
    /** A flag needs one of the two gates before it down, the relic both of the last two. */
    predicate CanInteractWithObject(o: Object)
      requires Gates.Length == GATES
      reads Gates
    {
      match o
      case LeftFlag => Gates[GREEN].state == Destroyed || Gates[BLUE].state == Destroyed
      case RightFlag => Gates[GREEN].state == Destroyed || Gates[BLUE].state == Destroyed
      case CentralFlag => Gates[RED].state == Destroyed || Gates[PURPLE].state == Destroyed
      case TitanRelic => Gates[YELLOW].state == Destroyed && Gates[ANCIENT].state == Destroyed
      case OtherObject => true
    }

    method CaptureGraveyard(graveyard: nat, team: nat)
      requires graveyard < Graveyards.Length
      modifies Graveyards
      ensures Graveyards[..] == old(Graveyards[..])[graveyard := team]
    {
      Graveyards[graveyard] := team;
    }

    /** The relic ends a round: the first swaps the sides, the second decides the match. */
    method ActivateTitanRelic(ghost e: Event)
      requires Valid() && (Status == RoundOne || Status == RoundTwo) && e.Use? && EndsPhase(history, Status, e)
      modifies this, Gates, Graveyards, RoundScores
      ensures Valid() && All(history) == old(All(history)) + [e]
      ensures |old(View()).scores| == 2 && RoundClosed(old(View()), Score(old(Attackers), old(TotalTime)), View())
    {
      hide Shows, Add, GatesShow, GraveyardsShow, Elapsed, Fallen, All;
      ghost var v, h := View(), history;
      ClockFacts(v, h);
      SizesShow(v, h);
      EventJoins(v, h, e);
      LogStep(RoundLog(h, v.status), e);
      history := Add(h, v.status, e);
      if Status == RoundOne {
        RoundScores[0] := Score(Attackers, TotalTime);
        Attackers := Defenders();
        Status := SecondWarmup;
        TotalTime := 0;
        ResetObjects();
        RoundOneEnds(v, h, e, Gates[..], Graveyards[..]);
      } else {
        RoundScores[1] := Score(Attackers, TotalTime);
        SecondRoundIsShorter(v, h);
        DecideByTime(h.first, h.second + [e]);
        RoundTwoEnds(v, h, e);
      }
    }

    /** A player uses a flag, the relic or anything else. */
    method UseGameObject(entry: nat, team: nat)
      requires Valid() && (team == ALLIANCE || team == HORDE)
      modifies this, Gates, Graveyards, RoundScores
      ensures Valid() && All(history) == old(All(history)) + [Use(ObjectOf(entry), team)]
      ensures |old(View()).scores| == 2 && |old(View()).graveyards| == 5 && UsedAs(old(View()), entry, team, View())
    {
      var o := ObjectOf(entry);
      hide Shows, Add, Elapsed, Fallen, RoundLog, All, ObjectOf, RoundClosed;
      ghost var v, h, e := View(), history, Use(o, team);
      ClockFacts(v, h);
      SizesShow(v, h);
      WhatIsOpen(v, h);
      EventJoins(v, h, e);
      ObjectMeans(entry);
      if Winner >= 0 {
        history := Add(h, v.status, e);
        UseShows(v, h, e);
        return;
      }
      if o == TitanRelic && CanInteractWithObject(o) && team == Attackers &&
         (Status == RoundOne || Status == RoundTwo) {
        RelicEndsRound(v, h, e);
        ActivateTitanRelic(e);
        return;
      }
      RelicStays(v, h, e);
      UseShows(v, h, e);
      history := Add(h, v.status, e);
      match o {
        case LeftFlag =>
          if CanInteractWithObject(o) && team == Attackers && Graveyards[LEFT] != team {
            CaptureGraveyard(LEFT, team);
          }
        case RightFlag =>
          if CanInteractWithObject(o) && team == Attackers && Graveyards[RIGHT] != team {
            CaptureGraveyard(RIGHT, team);
          }
        case CentralFlag =>
          if CanInteractWithObject(o) && team == Attackers && Graveyards[CENTRAL] != team {
            CaptureGraveyard(CENTRAL, team);
          }
        case _ =>
      }
      assert forall y :: 0 <= y < 5 && v.graveyards[y] == team ==> v.graveyards[y := team] == v.graveyards;
      if FlagOpen(RoundLog(h, v.status), e, v.attackers) {
        assert Graveyards[..] == v.graveyards[FlagOf(o) := v.attackers];
      }
    }
  }
}
