/**
 The script hook dispatcher. Hooks are registered for a kind and an event, optionally for a limited number of shots;
 a callback may itself register, cancel and clear hooks while a Trigger is under way.
 */
module Hooks {
  import opened Sequences

  datatype Hook = Hook(id: nat, kind: string, event: int, shots: nat)

  /** What a running callback asks of the dispatcher. Clearing with a negative event clears every event of the kind. */
  datatype Action =
    | Register(kind: string, event: int, shots: nat)
    | Cancel(id: nat)
    | Clear(kind: string, event: int)

  /** What the callback of each hook asks for when it is called, up to its end or its failure. */
  type Script = nat -> seq<Action>

  /** How often a hook has fired, and how many matching Triggers have started since it was registered. */
  datatype Tally = Tally(kind: string, event: int, shots: nat, fired: nat, seen: nat)

  predicate Matches(h: Hook, kind: string, event: int)
  {
    h.kind == kind && h.event == event
  }

  predicate Cleared(h: Hook, kind: string, event: int)
  {
    h.kind == kind && (event < 0 || h.event == event)
  }

  /** In registration order, without repetition. */
  ghost predicate InOrder(s: seq<Hook>)
  {
    forall i, j :: 0 <= i < j < |s| ==> s[i].id < s[j].id
  }

  lemma FilterKeepsOrder(s: seq<Hook>, keep: Hook -> bool)
    requires InOrder(s)
    ensures InOrder(Filter(s, keep))
  {
    FilterKeepsPairs(s, keep, (g: Hook, h: Hook) => g.id < h.id);
  }

  /** The entry a live hook must have in the table. */
  function Entry(id: nat, t: Tally): Hook
  {
    Hook(id, t.kind, t.event, if t.shots == 0 || t.fired >= t.shots then 0 else t.shots - t.fired)
  }

  predicate Exhausted(t: Tally)
  {
    t.shots > 0 && t.fired == t.shots
  }

  function Min(a: nat, b: nat): nat
  {
    if a < b then a else b
  }

  /**
   The record of one hook is right: an unlimited hook has fired at every matching Trigger and a limited one at the first
   `shots` of them, unless it was cancelled, when it has fired at most that often.
   */
  predicate TallyOk(t: Tally, isCancelled: bool)
  {
    && t.fired <= t.seen
    && (t.shots > 0 ==> t.fired <= t.shots)
    && (!isCancelled ==> t.fired == if t.shots == 0 then t.seen else Min(t.shots, t.seen))
  }

  /**
   Everything a dispatcher keeps: the hook table, the ids ever cancelled, the next id and, as ghost record, the tallies.
   */
  ghost predicate Consistent(hooks: seq<Hook>, cancelled: set<nat>, next: nat, tallies: map<nat, Tally>)
  {
    && next >= 1
    && (forall id :: id in tallies <==> 1 <= id < next)
    && cancelled <= tallies.Keys
    && InOrder(hooks)
    && (forall h :: h in hooks ==> h.id in tallies)
    && (forall id :: id in tallies ==> TallyOk(tallies[id], id in cancelled))
    && (forall id :: id in tallies && id !in cancelled && !Exhausted(tallies[id]) ==> Entry(id, tallies[id]) in hooks)
    && (forall h :: h in hooks && h.id !in cancelled ==> !Exhausted(tallies[h.id]) && h == Entry(h.id, tallies[h.id]))
  }

  /** What one pass leaves of a hook it reaches: a matching hook spends a shot, and its last one removes it. */
  function AfterPass(h: Hook, kind: string, event: int): Hook
  {
    if Matches(h, kind, event) && h.shots > 1 then h.(shots := h.shots - 1) else h
  }

  predicate Survives(h: Hook, kind: string, event: int)
  {
    !(Matches(h, kind, event) && h.shots == 1)
  }

  ghost predicate Increasing(s: seq<nat>)
  {
    forall i, j :: 0 <= i < j < |s| ==> s[i] < s[j]
  }

  lemma AppendIncreasing(s: seq<nat>, x: nat)
    requires Increasing(s) && forall y :: y in s ==> y < x
    ensures Increasing(s + [x])
  {
    assert forall i :: 0 <= i < |s| ==> s[i] in s;
  }

  /**
   The hooks that fired so far: matching ones among `initial[..i]`, in order, and every matching one not cancelled
   since.
   */
  ghost predicate FiredOk(initial: seq<Hook>, i: nat, kind: string, event: int, cancelled: set<nat>, fired: seq<nat>)
    requires i <= |initial|
  {
    && Increasing(fired)
    && (forall id, j :: id in fired && i <= j < |initial| ==> id < initial[j].id)
    && (forall id :: id in fired ==> exists j :: 0 <= j < i && initial[j].id == id && Matches(initial[j], kind, event))
    && (forall j :: 0 <= j < i && initial[j].id !in cancelled && Matches(initial[j], kind, event) ==>
        initial[j].id in fired)
  }

  /** The hooks that remain so far: survivors of `initial[..i]`, in order, and every survivor not cancelled since. */
  ghost predicate RemainingOk(initial: seq<Hook>, i: nat, kind: string, event: int, cancelled: set<nat>,
                              remaining: seq<Hook>)
    requires i <= |initial|
  {
    && InOrder(remaining)
    && (forall h, j :: h in remaining && i <= j < |initial| ==> h.id < initial[j].id)
    && (forall h :: h in remaining ==>
          exists j :: 0 <= j < i && Survives(initial[j], kind, event) && h == AfterPass(initial[j], kind, event))
    && (forall j :: 0 <= j < i && initial[j].id !in cancelled && Survives(initial[j], kind, event) ==>
          AfterPass(initial[j], kind, event) in remaining)
  }

  /** A Trigger has gone through `initial[..i]`. */
  ghost predicate Passed(initial: seq<Hook>, i: nat, kind: string, event: int, cancelled: set<nat>,
                         remaining: seq<Hook>, fired: seq<nat>)
    requires i <= |initial|
  {
    FiredOk(initial, i, kind, event, cancelled, fired) && RemainingOk(initial, i, kind, event, cancelled, remaining)
  }

  /**
   The tally after a Trigger; it counts as seen only when its arguments could be pushed, so that it could call hooks.
   */
  function Counted(t: Tally, kind: string, event: int, calling: bool, didFire: bool): Tally
  {
    t.(seen := t.seen + if calling && t.kind == kind && t.event == event then 1 else 0,
       fired := t.fired + if didFire then 1 else 0)
  }

  function CountAll(tallies: map<nat, Tally>, next: nat, kind: string, event: int, calling: bool,
                    fired: seq<nat>): map<nat, Tally>
  {
    map id | id in tallies :: if id < next then Counted(tallies[id], kind, event, calling, id in fired) else tallies[id]
  }

  lemma PassedSkip(initial: seq<Hook>, i: nat, kind: string, event: int, cancelled: set<nat>, remaining: seq<Hook>,
                   fired: seq<nat>)
    requires i < |initial| && InOrder(initial) && Passed(initial, i, kind, event, cancelled, remaining, fired) &&
             initial[i].id in cancelled
    ensures Passed(initial, i + 1, kind, event, cancelled, remaining, fired)
  {
  }

  lemma PassedKeep(initial: seq<Hook>, i: nat, kind: string, event: int, cancelled: set<nat>, remaining: seq<Hook>,
                   fired: seq<nat>)
    requires i < |initial| && InOrder(initial) && Passed(initial, i, kind, event, cancelled, remaining, fired)
    requires !Matches(initial[i], kind, event)
    ensures Passed(initial, i + 1, kind, event, cancelled, remaining + [initial[i]], fired)
  {
  }

  lemma PassedFire(initial: seq<Hook>, i: nat, kind: string, event: int, cancelled: set<nat>, cancelled': set<nat>,
                   remaining: seq<Hook>, fired: seq<nat>, remaining': seq<Hook>)
    requires i < |initial| && InOrder(initial) && Passed(initial, i, kind, event, cancelled, remaining, fired) &&
             cancelled <= cancelled'
    requires Matches(initial[i], kind, event)
    requires remaining' == if Survives(initial[i], kind, event) && initial[i].id !in cancelled'
                           then remaining + [AfterPass(initial[i], kind, event)] else remaining
    ensures Passed(initial, i + 1, kind, event, cancelled', remaining', fired + [initial[i].id])
  {
    hide RemainingOk;
    FireStep(initial, i, kind, event, cancelled, cancelled', fired);
    RemainStep(initial, i, kind, event, cancelled, cancelled', remaining, remaining');
  }

  lemma FireStep(initial: seq<Hook>, i: nat, kind: string, event: int, cancelled: set<nat>, cancelled': set<nat>,
                 fired: seq<nat>)
    requires i < |initial| && InOrder(initial) && FiredOk(initial, i, kind, event, cancelled, fired) &&
             cancelled <= cancelled'
    requires Matches(initial[i], kind, event)
    ensures FiredOk(initial, i + 1, kind, event, cancelled', fired + [initial[i].id])
  {
    hide Matches;
    AppendIncreasing(fired, initial[i].id);
  }

  lemma RemainStep(initial: seq<Hook>, i: nat, kind: string, event: int, cancelled: set<nat>, cancelled': set<nat>,
                   remaining: seq<Hook>, remaining': seq<Hook>)
    requires i < |initial| && InOrder(initial) && RemainingOk(initial, i, kind, event, cancelled, remaining) &&
             cancelled <= cancelled'
    requires remaining' == if Survives(initial[i], kind, event) && initial[i].id !in cancelled'
                           then remaining + [AfterPass(initial[i], kind, event)] else remaining
    ensures RemainingOk(initial, i + 1, kind, event, cancelled', remaining')
  {
    hide Survives, Matches;
    assert AfterPass(initial[i], kind, event).id == initial[i].id;
  }

  lemma CountsStayOk(initial: seq<Hook>, cancelled0: set<nat>, next0: nat, tallies0: map<nat, Tally>,
                     cancelled: set<nat>, next: nat, tallies: map<nat, Tally>,
                     kind: string, event: int, calling: bool, remaining: seq<Hook>, fired: seq<nat>)
    requires calling || fired == []
    requires Consistent(initial, cancelled0, next0, tallies0) && cancelled0 <= cancelled
    requires forall id :: id in tallies0 ==> id in tallies && tallies[id] == tallies0[id]
    requires forall id :: id in tallies ==> 1 <= id && TallyOk(tallies[id], id in cancelled)
    requires Passed(initial, |initial|, kind, event, cancelled, remaining, fired)
    requires forall id :: id in fired ==> id !in cancelled0
    ensures var counted := CountAll(tallies, next0, kind, event, calling, fired);
            forall id :: id in counted ==> TallyOk(counted[id], id in cancelled)
  {
  }

  /** Installing what a finished pass left, and the hooks registered meanwhile, keeps the dispatcher consistent. */
  lemma PassedIsConsistent(initial: seq<Hook>, cancelled0: set<nat>, next0: nat, tallies0: map<nat, Tally>,
                           hooks: seq<Hook>, cancelled: set<nat>, next: nat, tallies: map<nat, Tally>,
                           kind: string, event: int, calling: bool, remaining: seq<Hook>, fired: seq<nat>,
                             added: seq<Hook>)
    requires calling || fired == []
    requires Consistent(initial, cancelled0, next0, tallies0) && Consistent(hooks, cancelled, next, tallies)
    requires next0 <= next && cancelled0 <= cancelled
    requires forall id :: id in tallies0 ==> id in tallies && tallies[id] == tallies0[id]
    requires Passed(initial, |initial|, kind, event, cancelled, remaining, fired)
    requires forall id :: id in fired ==> id !in cancelled0
    requires InOrder(added) && forall h :: h in added <==> h in hooks && h.id >= next0 && h.id !in cancelled
    ensures Consistent(remaining + added, cancelled, next, CountAll(tallies, next0, kind, event, calling, fired))
  {
    hide Passed, TallyOk, Counted, Exhausted;
    var all, counted := remaining + added, CountAll(tallies, next0, kind, event, calling, fired);
    RemainingIsOld(initial, cancelled0, next0, tallies0, cancelled, kind, event, remaining, fired);
    CountsStayOk(initial, cancelled0, next0, tallies0, cancelled, next, tallies, kind, event, calling, remaining,
                 fired);
    forall id | id in counted && id !in cancelled && !Exhausted(counted[id]) ensures Entry(id, counted[id]) in all {
      if id < next0 {
        PassTally(initial, cancelled0, next0, tallies0, cancelled, kind, event, calling, remaining, fired, id);
      } else {
        assert Entry(id, tallies[id]) in added;
      }
    }
    forall h | h in all && h.id !in cancelled ensures !Exhausted(counted[h.id]) && h == Entry(h.id, counted[h.id]) {
      if h in remaining {
        PassTally(initial, cancelled0, next0, tallies0, cancelled, kind, event, calling, remaining, fired, h.id);
      }
    }
  }

  lemma RemainingIsOld(initial: seq<Hook>, cancelled0: set<nat>, next0: nat, tallies0: map<nat, Tally>,
                       cancelled: set<nat>,
                       kind: string, event: int, remaining: seq<Hook>, fired: seq<nat>)
    requires Consistent(initial, cancelled0, next0, tallies0) &&
             Passed(initial, |initial|, kind, event, cancelled, remaining, fired)
    ensures InOrder(remaining) && forall h :: h in remaining ==> h.id in tallies0
  {
  }

  /** What a finished pass means for one uncancelled hook. */
  lemma PassTally(initial: seq<Hook>, cancelled0: set<nat>, next0: nat, tallies0: map<nat, Tally>, cancelled: set<nat>,
                  kind: string, event: int, calling: bool, remaining: seq<Hook>, fired: seq<nat>, id: nat)
    requires calling || fired == []
    requires Consistent(initial, cancelled0, next0, tallies0) && id in tallies0 && id !in cancelled &&
             cancelled0 <= cancelled
    requires Passed(initial, |initial|, kind, event, cancelled, remaining, fired)
    ensures var counted := Counted(tallies0[id], kind, event, calling, id in fired);
            && TallyOk(counted, false)
            && (!Exhausted(counted) ==> Entry(id, counted) in remaining)
            && (forall h :: h in remaining && h.id == id ==> !Exhausted(counted) && h == Entry(id, counted))
  {
  }

  // ---------- Requests ----------

  /** A dispatcher as it stands, with its record. */
  datatype Snapshot = Snapshot(hooks: seq<Hook>, cancelled: set<nat>, next: nat, tallies: map<nat, Tally>)
  {
    ghost predicate Valid()
    {
      Consistent(hooks, cancelled, next, tallies)
    }
  }

  function ClearedIds(hooks: seq<Hook>, kind: string, event: int): set<nat>
  {
    set h | h in hooks && Cleared(h, kind, event) :: h.id
  }

  /** One request. Only a hook that was registered can be cancelled. */
  function Do(s: Snapshot, action: Action): Snapshot
  {
    match action
    case Register(kind, event, shots) =>
      Snapshot(s.hooks + [Hook(s.next, kind, event, shots)], s.cancelled, s.next + 1,
               s.tallies[s.next := Tally(kind, event, shots, 0, 0)])
    case Cancel(id) =>
      if 1 <= id < s.next
      then Snapshot(Filter(s.hooks, (h: Hook) => h.id != id), s.cancelled + {id}, s.next, s.tallies)
      else s
    case Clear(kind, event) =>
      Snapshot(Filter(s.hooks, (h: Hook) => !Cleared(h, kind, event)), s.cancelled + ClearedIds(s.hooks, kind, event),
               s.next, s.tallies)
  }

  function DoAll(s: Snapshot, actions: seq<Action>): Snapshot
  {
    if actions == [] then s else Do(DoAll(s, actions[..|actions| - 1]), actions[|actions| - 1])
  }

  lemma {:induction false} DoAllConcat(s: Snapshot, a: seq<Action>, b: seq<Action>)
    ensures DoAll(s, a + b) == DoAll(DoAll(s, a), b)
  {
    if b == [] {
      assert a + b == a;
    } else {
      assert (a + b)[..|a + b| - 1] == a + b[..|b| - 1];
      DoAllConcat(s, a, b[..|b| - 1]);
    }
  }

  /** From `p` to `q` hooks were only registered, cancelled and cleared; none fired. */
  ghost predicate Evolved(p: Snapshot, q: Snapshot)
  {
    && p.next <= q.next && p.cancelled <= q.cancelled
    && (forall id :: id in p.tallies ==> id in q.tallies && q.tallies[id] == p.tallies[id])
    && (forall id :: id in q.tallies && id !in p.tallies ==> q.tallies[id].fired == 0 == q.tallies[id].seen)
    && (forall h :: h in q.hooks ==> h in p.hooks || h.id >= p.next)
  }

  /** Dropping hooks whose ids are marked cancelled keeps the dispatcher consistent. */
  lemma FilteredIsConsistent(p: Snapshot, keep: Hook -> bool, gone: set<nat>)
    requires p.Valid() && gone <= p.tallies.Keys
    requires forall h :: h in p.hooks && !keep(h) ==> h.id in gone
    ensures Consistent(Filter(p.hooks, keep), p.cancelled + gone, p.next, p.tallies)
    ensures Evolved(p, Snapshot(Filter(p.hooks, keep), p.cancelled + gone, p.next, p.tallies))
  {
    FilterKeepsOrder(p.hooks, keep);
  }

  lemma RegisteredIsConsistent(s: Snapshot, action: Action)
    requires s.Valid() && action.Register?
    ensures Do(s, action).Valid() && Evolved(s, Do(s, action))
  {
    var t := Tally(action.kind, action.event, action.shots, 0, 0);
    NewTallyIsOk(s.next, t);
    AppendIsConsistent(s, t);
    hide Consistent;
  }

  lemma NewTallyIsOk(id: nat, t: Tally)
    requires t.fired == t.seen == 0
    ensures TallyOk(t, false) && !Exhausted(t) && Entry(id, t) == Hook(id, t.kind, t.event, t.shots)
  {
  }

  lemma AppendIsConsistent(s: Snapshot, t: Tally)
    requires s.Valid() && TallyOk(t, false) && !Exhausted(t)
    ensures Consistent(s.hooks + [Entry(s.next, t)], s.cancelled, s.next + 1, s.tallies[s.next := t])
  {
    hide TallyOk, Exhausted;
  }

  lemma ClearedAreKnown(s: Snapshot, kind: string, event: int)
    requires s.Valid()
    ensures ClearedIds(s.hooks, kind, event) <= s.tallies.Keys
    ensures forall id :: id in ClearedIds(s.hooks, kind, event) - s.cancelled ==>
              Hits(Clear(kind, event), id, s.tallies[id])
  {
  }

  lemma DoIsConsistent(s: Snapshot, action: Action)
    requires s.Valid()
    ensures Do(s, action).Valid() && Evolved(s, Do(s, action))
  {
    hide Consistent;
    match action
    case Register(_, _, _) => RegisteredIsConsistent(s, action);
    case Cancel(id) =>
      assert Evolved(s, s);
      if 1 <= id < s.next {
        IdsAreKnown(s, id);
        FilteredIsConsistent(s, (h: Hook) => h.id != id, {id});
      }
    case Clear(kind, event) =>
      ClearedAreKnown(s, kind, event);
      FilteredIsConsistent(s, (h: Hook) => !Cleared(h, kind, event), ClearedIds(s.hooks, kind, event));
  }

  lemma IdsAreKnown(s: Snapshot, id: nat)
    requires s.Valid()
    ensures id in s.tallies <==> 1 <= id < s.next
  {
  }

  lemma {:induction false} DoAllIsConsistent(s: Snapshot, actions: seq<Action>)
    requires s.Valid()
    ensures DoAll(s, actions).Valid() && Evolved(s, DoAll(s, actions))
  {
    hide Consistent, Do;
    if actions != [] {
      DoAllIsConsistent(s, actions[..|actions| - 1]);
      DoIsConsistent(DoAll(s, actions[..|actions| - 1]), actions[|actions| - 1]);
    }
  }

  /** What a request does to the table and the marks. */
  lemma DoMeans(s: Snapshot, kind: string, event: int, shots: nat, id: nat)
    ensures Do(s, Register(kind, event, shots)).hooks == s.hooks + [Hook(s.next, kind, event, shots)]
    ensures var q := Do(s, Cancel(id));
            1 <= id < s.next ==>
              q.cancelled == s.cancelled + {id} && forall h :: h in q.hooks <==> h in s.hooks && h.id != id
    ensures var q := Do(s, Clear(kind, event));
            && (forall h :: h in q.hooks <==> h in s.hooks && !(h.kind == kind && (event < 0 || h.event == event)))
            && (forall i :: i in q.cancelled <==>
                  i in s.cancelled ||
                  exists h :: h in s.hooks && h.id == i && h.kind == kind && (event < 0 || h.event == event))
  {
  }

  // ---------- Who is named ----------

  /** The request cancels the hook with this id and record, or clears its kind and event. */
  predicate Hits(action: Action, id: nat, t: Tally)
  {
    match action
    case Register(_, _, _) => false
    case Cancel(other) => other == id
    case Clear(kind, event) => kind == t.kind && (event < 0 || event == t.event)
  }

  predicate Named(actions: seq<Action>, id: nat, t: Tally)
  {
    exists i :: 0 <= i < |actions| && Hits(actions[i], id, t)
  }

  /** Some callback of a pass that called these hooks names the hook. */
  predicate NamedBy(script: Script, fired: seq<nat>, id: nat, t: Tally)
  {
    exists j :: 0 <= j < |fired| && Named(script(fired[j]), id, t)
  }

  /** The same, for the callbacks called before the hook had its turn. */
  predicate NamedBefore(script: Script, fired: seq<nat>, id: nat, t: Tally)
  {
    exists j :: 0 <= j < |fired| && fired[j] < id && Named(script(fired[j]), id, t)
  }

  lemma NamedSplit(a: seq<Action>, b: seq<Action>, id: nat, t: Tally)
    ensures Named(a + b, id, t) <==> Named(a, id, t) || Named(b, id, t)
  {
    hide Hits;
    if i :| 0 <= i < |a| && Hits(a[i], id, t) {
      assert (a + b)[i] == a[i];
    }
    if i :| 0 <= i < |b| && Hits(b[i], id, t) {
      assert (a + b)[|a| + i] == b[i];
    }
  }

  /** One request marks exactly the hooks that it names, unless they have used up their shots. */
  lemma DoMarks(s: Snapshot, action: Action, id: nat)
    requires s.Valid() && id in s.tallies && id !in s.cancelled
    ensures id in Do(s, action).cancelled ==> Hits(action, id, s.tallies[id])
    ensures !Exhausted(s.tallies[id]) && Hits(action, id, s.tallies[id]) ==> id in Do(s, action).cancelled
  {
    IdsAreKnown(s, id);
  }

  /** No hook is marked unless a request names it, and every hook that can still fire is marked when one does. */
  lemma {:induction false} MarkedAreNamed(s: Snapshot, actions: seq<Action>, id: nat)
    requires s.Valid() && id !in s.cancelled && id in DoAll(s, actions).tallies
    ensures var t := DoAll(s, actions).tallies[id];
            && (id in DoAll(s, actions).cancelled ==> Named(actions, id, t))
            && (id in s.tallies && !Exhausted(t) && Named(actions, id, t) ==> id in DoAll(s, actions).cancelled)
  {
    hide Consistent, Do, Hits, Named;
    if actions == [] {
      NobodyIsNamed(id, DoAll(s, actions).tallies[id]);
    } else {
      var front, last := actions[..|actions| - 1], actions[|actions| - 1];
      var m, t := DoAll(s, front), DoAll(s, actions).tallies[id];
      DoAllIsConsistent(s, front);
      DoIsConsistent(m, last);
      assert actions == front + [last];
      NamedSplit(front, [last], id, t);
      NamedOne(last, id, t);
      if id in m.tallies {
        MarkedAreNamed(s, front, id);
        if id !in m.cancelled {
          DoMarks(m, last, id);
        }
      } else {
        NewIsUnmarked(m, last, id);
      }
    }
  }

  lemma NobodyIsNamed(id: nat, t: Tally)
    ensures !Named([], id, t)
  {
  }

  lemma NamedOne(action: Action, id: nat, t: Tally)
    ensures Named([action], id, t) <==> Hits(action, id, t)
  {
    assert [action][0] == action;
  }

  lemma NewIsUnmarked(s: Snapshot, action: Action, id: nat)
    requires s.Valid() && id !in s.tallies && id in Do(s, action).tallies
    ensures id !in Do(s, action).cancelled
  {
  }

  // ---------- Triggers ----------

  /** Everything the called hooks asked for, in order. */
  function Requests(script: Script, fired: seq<nat>): seq<Action>
  {
    if fired == [] then [] else Requests(script, fired[..|fired| - 1]) + script(fired[|fired| - 1])
  }

  lemma {:induction false} RequestsNamed(script: Script, fired: seq<nat>, id: nat, t: Tally)
    ensures Named(Requests(script, fired), id, t) <==> NamedBy(script, fired, id, t)
  {
    hide Named;
    if fired == [] {
      NobodyIsNamed(id, t);
    } else {
      var front, last := fired[..|fired| - 1], fired[|fired| - 1];
      RequestsNamed(script, front, id, t);
      NamedSplit(Requests(script, front), script(last), id, t);
      if Named(script(last), id, t) {
        assert fired[|fired| - 1] == last;
      }
      if j :| 0 <= j < |front| && Named(script(front[j]), id, t) {
        assert fired[j] == front[j];
      }
    }
  }

  /** The hook is registered for this kind and event and may fire. */
  ghost predicate Ready(s: Snapshot, id: nat, kind: string, event: int)
  {
    && id in s.tallies && id !in s.cancelled
    && !Exhausted(s.tallies[id]) && s.tallies[id].kind == kind && s.tallies[id].event == event
  }

  /**
   A Trigger that called the hooks in `fired` took the dispatcher from `p` to `q`. It calls, in order of registration,
   exactly the hooks that were ready when it started and that no callback called before them had cancelled or cleared.
   When an argument cannot be pushed (`!pushable`) it calls none.
   */
  ghost predicate Triggered(p: Snapshot, q: Snapshot, kind: string, event: int, pushable: bool, script: Script,
                            fired: seq<nat>)
  {
    && var asked := DoAll(p, Requests(script, fired));
    && q.cancelled == asked.cancelled && q.next == asked.next
    && q.tallies == CountAll(asked.tallies, p.next, kind, event, pushable, fired)
    && Increasing(fired)
    && (forall id :: id in fired ==> Ready(p, id, kind, event))
    && (pushable ==> forall id :: Ready(p, id, kind, event) ==>
        (id in fired <==> !NamedBefore(script, fired, id, p.tallies[id])))
    && (!pushable ==> fired == [])
  }

  /** Every hook among `initial[..i]` that was ready had its turn. */
  ghost predicate TurnsTaken(s: Snapshot, i: nat, kind: string, event: int, script: Script, fired: seq<nat>)
    requires i <= |s.hooks|
  {
    forall k :: 0 <= k < i && Ready(s, s.hooks[k].id, kind, event) ==>
      (s.hooks[k].id in fired <==> !NamedBefore(script, fired, s.hooks[k].id, s.tallies[s.hooks[k].id]))
  }

  lemma NotItsTurn(s: Snapshot, i: nat, kind: string, event: int, script: Script, fired: seq<nat>)
    requires i < |s.hooks| && s.Valid() && TurnsTaken(s, i, kind, event, script, fired) &&
             !Matches(s.hooks[i], kind, event)
    ensures TurnsTaken(s, i + 1, kind, event, script, fired)
  {
    hide NamedBefore;
    assert s.hooks[i] in s.hooks;
  }

  /** A hook found cancelled at its turn was cancelled at the start or named by an earlier callback. */
  lemma TurnRefused(s: Snapshot, i: nat, kind: string, event: int, script: Script, fired: seq<nat>)
    requires i < |s.hooks| && s.Valid() && TurnsTaken(s, i, kind, event, script, fired)
    requires forall id :: id in fired ==> id < s.hooks[i].id
    requires s.hooks[i].id in DoAll(s, Requests(script, fired)).cancelled
    ensures TurnsTaken(s, i + 1, kind, event, script, fired)
  {
    hide Consistent, Named, DoAll;
    var id := s.hooks[i].id;
    if Ready(s, id, kind, event) {
      DoAllIsConsistent(s, Requests(script, fired));
      MarkedAreNamed(s, Requests(script, fired), id);
      RequestsNamed(script, fired, id, s.tallies[id]);
      var j :| 0 <= j < |fired| && Named(script(fired[j]), id, s.tallies[id]);
      assert fired[j] in fired;
      assert NamedBefore(script, fired, id, s.tallies[id]) && id !in fired;
    }
  }

  /** A hook that is called at its turn was not named by an earlier callback. */
  lemma TurnTaken(s: Snapshot, i: nat, kind: string, event: int, script: Script, fired: seq<nat>)
    requires i < |s.hooks| && s.Valid() && TurnsTaken(s, i, kind, event, script, fired) &&
             Matches(s.hooks[i], kind, event)
    requires forall id :: id in fired ==> id < s.hooks[i].id
    requires s.hooks[i].id !in DoAll(s, Requests(script, fired)).cancelled
    ensures Ready(s, s.hooks[i].id, kind, event) && TurnsTaken(s, i + 1, kind, event, script, fired + [s.hooks[i].id])
  {
    hide Named, DoAll;
    var id := s.hooks[i].id;
    DoAllIsConsistent(s, Requests(script, fired));
    MarkedAreNamed(s, Requests(script, fired), id);
    RequestsNamed(script, fired, id, s.tallies[id]);
    var after := fired + [id];
    assert !NamedBefore(script, fired, id, s.tallies[id]);
    forall k | 0 <= k <= i
      ensures NamedBefore(script, after, s.hooks[k].id, s.tallies[s.hooks[k].id]) <==>
              NamedBefore(script, fired, s.hooks[k].id, s.tallies[s.hooks[k].id])
    {
      assert forall j :: 0 <= j < |fired| ==> after[j] == fired[j];
    }
  }

  lemma AllTurnsTaken(s: Snapshot, kind: string, event: int, script: Script, fired: seq<nat>)
    requires s.Valid() && TurnsTaken(s, |s.hooks|, kind, event, script, fired)
    ensures forall id :: Ready(s, id, kind, event) ==> (id in fired <==> !NamedBefore(script, fired, id, s.tallies[id]))
  {
    hide NamedBefore;
    forall id | Ready(s, id, kind, event) ensures id in fired <==> !NamedBefore(script, fired, id, s.tallies[id]) {
      var k :| 0 <= k < |s.hooks| && s.hooks[k] == Entry(id, s.tallies[id]);
      assert s.hooks[k].id == id;
    }
  }

  lemma NothingPassed(start: Snapshot, kind: string, event: int, script: Script)
    requires start.Valid()
    ensures InOrder(start.hooks) && Passed(start.hooks, 0, kind, event, start.cancelled, [], [])
    ensures TurnsTaken(start, 0, kind, event, script, []) && start == DoAll(start, Requests(script, []))
  {
  }

  lemma NothingHappened(s: Snapshot, kind: string, event: int, script: Script)
    ensures Triggered(s, s, kind, event, false, script, [])
  {
  }

  /** One more hook called: its requests follow those before. */
  lemma RequestsNext(s: Snapshot, script: Script, fired: seq<nat>, id: nat)
    ensures DoAll(s, Requests(script, fired + [id])) == DoAll(DoAll(s, Requests(script, fired)), script(id))
  {
    assert (fired + [id])[..|fired|] == fired;
    DoAllConcat(s, Requests(script, fired), script(id));
  }

  /** What a pass that came to its end has established. */
  lemma TriggerEnded(p: Snapshot, asked: Snapshot, q: Snapshot, kind: string, event: int, pushable: bool,
                     script: Script, fired: seq<nat>)
    requires p.Valid() && asked == DoAll(p, Requests(script, fired))
    requires q.cancelled == asked.cancelled && q.next == asked.next && Increasing(fired)
    requires q.tallies == CountAll(asked.tallies, p.next, kind, event, pushable, fired)
    requires forall id :: id in fired ==> Ready(p, id, kind, event)
    requires if pushable then TurnsTaken(p, |p.hooks|, kind, event, script, fired) else fired == []
    ensures Triggered(p, q, kind, event, pushable, script, fired)
  {
    hide Consistent, DoAll, Requests, CountAll, TurnsTaken, Ready, NamedBefore;
    if pushable {
      AllTurnsTaken(p, kind, event, script, fired);
    }
  }

  lemma MarksStay(s: Snapshot, actions: seq<Action>)
    requires s.Valid()
    ensures s.cancelled <= DoAll(s, actions).cancelled
  {
    DoAllIsConsistent(s, actions);
  }

  lemma ReadyIsLive(s: Snapshot, kind: string, event: int)
    ensures forall id :: Ready(s, id, kind, event) ==> id in s.tallies && id !in s.cancelled
  {
  }

  lemma PassedBelow(initial: seq<Hook>, i: nat, kind: string, event: int, cancelled: set<nat>, remaining: seq<Hook>,
                    fired: seq<nat>)
    requires i < |initial| && Passed(initial, i, kind, event, cancelled, remaining, fired)
    ensures forall id :: id in fired ==> id < initial[i].id
  {
  }

  // ---------- Runs ----------

  /** What happens to a dispatcher from outside: a request, or a Trigger, which called the hooks in `fired`. */
  datatype Step =
    | Ask(action: Action)
    | Fire(kind: string, event: int, pushable: bool, script: Script, fired: seq<nat>)
  {
    ghost predicate Leads(p: Snapshot, q: Snapshot)
    {
      match this
      case Ask(action) => q == Do(p, action)
      case Fire(kind, event, pushable, script, fired) =>
        q.Valid() && Triggered(p, q, kind, event, pushable, script, fired)
    }

    /** Some request of the step cancels or clears the hook. */
    predicate Names(id: nat, t: Tally)
    {
      match this
      case Ask(action) => Hits(action, id, t)
      case Fire(_, _, _, script, fired) => NamedBy(script, fired, id, t)
    }

    predicate Fires(id: nat)
    {
      Fire? && id in fired
    }

    /** The step is a Trigger for hooks of this kind and event that could push its arguments. */
    predicate Calls(k: string, e: int)
    {
      Fire? && pushable && kind == k && event == e
    }
  }

  ghost predicate Run(trace: seq<Snapshot>, steps: seq<Step>)
  {
    && |trace| == |steps| + 1 && trace[0].Valid()
    && forall i :: 0 <= i < |steps| ==> steps[i].Leads(trace[i], trace[i + 1])
  }

  /** How often the hook was called. */
  function Firings(steps: seq<Step>, id: nat): nat
  {
    if steps == [] then 0 else
      Firings(steps[..|steps| - 1], id) + if steps[|steps| - 1].Fires(id) then 1 else 0
  }

  /** How often hooks of this kind and event could be called. */
  function Calls(steps: seq<Step>, kind: string, event: int): nat
  {
    if steps == [] then 0 else
      Calls(steps[..|steps| - 1], kind, event) + if steps[|steps| - 1].Calls(kind, event) then 1 else 0
  }

  /**
   One step keeps the dispatcher consistent, moves the tally of a known hook as it should, and cancels it only by name.
   */
  lemma StepMovesTally(p: Snapshot, step: Step, q: Snapshot, id: nat)
    requires p.Valid() && step.Leads(p, q) && id in p.tallies
    ensures q.Valid() && id in q.tallies && p.cancelled <= q.cancelled
    ensures var t := p.tallies[id];
            && q.tallies[id] == t.(seen := t.seen + if step.Calls(t.kind, t.event) then 1 else 0,
                                   fired := t.fired + if step.Fires(id) then 1 else 0)
            && (id in q.cancelled - p.cancelled ==> step.Names(id, t))
            && (step.Names(id, t) && !Exhausted(t) ==> id in q.cancelled)
            && (id in p.cancelled ==> !step.Fires(id))
  {
    hide Named, Hits, DoAll;
    IdsAreKnown(p, id);
    match step
    case Ask(action) =>
      DoIsConsistent(p, action);
      if id !in p.cancelled {
        DoMarks(p, action, id);
      }
    case Fire(kind, event, pushable, script, fired) =>
      DoAllIsConsistent(p, Requests(script, fired));
      if id !in p.cancelled {
        MarkedAreNamed(p, Requests(script, fired), id);
        RequestsNamed(script, fired, id, p.tallies[id]);
      }
  }

  /** A hook that appears during a step has not been called, and is cancelled only if that step names it. */
  lemma NewHookIsFresh(p: Snapshot, step: Step, q: Snapshot, id: nat)
    requires p.Valid() && step.Leads(p, q) && id !in p.tallies && id in q.tallies
    ensures q.Valid() && q.tallies[id].seen == q.tallies[id].fired == 0 && !step.Fires(id)
    ensures id in q.cancelled ==> step.Names(id, q.tallies[id])
  {
    hide Named, Hits, DoAll;
    IdsAreKnown(p, id);
    assert id !in p.cancelled;
    match step
    case Ask(action) =>
      DoIsConsistent(p, action);
      NewIsUnmarked(p, action, id);
    case Fire(kind, event, pushable, script, fired) =>
      DoAllIsConsistent(p, Requests(script, fired));
      MarkedAreNamed(p, Requests(script, fired), id);
      RequestsNamed(script, fired, id, DoAll(p, Requests(script, fired)).tallies[id]);
  }

  /** Over a run a hook's tally counts its calls and the Triggers for it, and it is cancelled only by name. */
  lemma {:induction false} RunMovesTally(trace: seq<Snapshot>, steps: seq<Step>, id: nat)
    requires Run(trace, steps) && id in trace[0].tallies
    ensures var t, q := trace[0].tallies[id], trace[|steps|];
            && q.Valid() && id in q.tallies
            && q.tallies[id] == t.(seen := t.seen + Calls(steps, t.kind, t.event),
                                   fired := t.fired + Firings(steps, id))
            && (id in trace[0].cancelled ==> id in q.cancelled && Firings(steps, id) == 0)
            && (id in q.cancelled ==> id in trace[0].cancelled || exists i :: 0 <= i < |steps| && steps[i].Names(id, t))
  {
    hide Consistent, Step.Leads, Step.Names, Step.Calls, Step.Fires;
    if steps != [] {
      var n := |steps| - 1;
      RunMovesTally(trace[..n + 1], steps[..n], id);
      StepMovesTally(trace[n], steps[n], trace[n + 1], id);
      var t := trace[0].tallies[id];
      if i :| 0 <= i < n && steps[..n][i].Names(id, t) {
        assert steps[i].Names(id, t);
      }
      var m := trace[n].tallies[id];
      NamesIgnoreCounts(steps[n], id, t, m);
    }
  }

  lemma NamesIgnoreCounts(step: Step, id: nat, t: Tally, m: Tally)
    requires t.kind == m.kind && t.event == m.event
    ensures step.Names(id, t) <==> step.Names(id, m)
  {
    forall actions ensures Named(actions, id, t) <==> Named(actions, id, m) {
      assert forall action :: Hits(action, id, t) <==> Hits(action, id, m);
    }
  }

  /**
   A hook that step `k` of a run registers, from outside or from a callback, is called at most as often as it has shots
   and only at Triggers for it; when no request names it, at exactly the first ones.
   */
  lemma FiresAsPromised(trace: seq<Snapshot>, steps: seq<Step>, k: nat, id: nat)
    requires Run(trace, steps) && k < |steps| && id !in trace[k].tallies && id in trace[k + 1].tallies
    ensures var t, later := trace[k + 1].tallies[id], steps[k + 1..];
            var calls := Calls(later, t.kind, t.event);
            var due := if t.shots == 0 then calls else Min(t.shots, calls);
            && Firings(later, id) <= due
            && ((forall i :: k <= i < |steps| ==> !steps[i].Names(id, t)) ==> Firings(later, id) == due)
  {
    hide Step.Leads, Step.Names;
    RunIsValid(trace, steps, k);
    NewHookIsFresh(trace[k], steps[k], trace[k + 1], id);
    RunMovesTally(trace[k + 1..], steps[k + 1..], id);
    var t, q := trace[k + 1].tallies[id], trace[|steps|];
    assert TallyOk(q.tallies[id], id in q.cancelled);
    var later := steps[k + 1..];
    if i :| 0 <= i < |later| && later[i].Names(id, t) {
      assert steps[k + 1 + i].Names(id, t);
    }
  }

  lemma {:induction false} RunIsValid(trace: seq<Snapshot>, steps: seq<Step>, k: nat)
    requires Run(trace, steps) && k <= |steps|
    ensures trace[k].Valid()
  {
    hide Consistent, Triggered, Do;
    if k > 0 {
      RunIsValid(trace, steps, k - 1);
      StepIsValid(trace[k - 1], steps[k - 1], trace[k]);
    }
  }

  lemma StepIsValid(p: Snapshot, step: Step, q: Snapshot)
    requires p.Valid() && step.Leads(p, q)
    ensures q.Valid()
  {
    if step.Ask? {
      DoIsConsistent(p, step.action);
    }
  }

  /** Once a request names a hook that can still fire, no later step calls it. */
  lemma NamedFallsSilent(trace: seq<Snapshot>, steps: seq<Step>, k: nat, id: nat)
    requires Run(trace, steps) && k < |steps| && id in trace[k].tallies && steps[k].Names(id, trace[k].tallies[id])
    ensures Firings(steps[k + 1..], id) == 0
  {
    hide Step.Leads, Step.Names;
    RunIsValid(trace, steps, k);
    StepMovesTally(trace[k], steps[k], trace[k + 1], id);
    RunMovesTally(trace[k + 1..], steps[k + 1..], id);
    if Exhausted(trace[k].tallies[id]) {
      assert TallyOk(trace[|steps|].tallies[id], id in trace[|steps|].cancelled);
    }
  }

  class Dispatcher {
    var hooks: seq<Hook>
    var cancelled: set<nat>
    var nextHook: nat
    ghost var tallies: map<nat, Tally>

    ghost predicate Valid()
      reads this
    {
      View().Valid()
    }

    constructor ()
      ensures Valid() && View() == Snapshot([], {}, 1, map[])
    {
      hooks, cancelled, nextHook, tallies := [], {}, 1, map[];
    }

    ghost function View(): Snapshot
      reads this
    {
      Snapshot(hooks, cancelled, nextHook, tallies)
    }

    method RegisterHook(kind: string, event: int, shots: nat) returns (id: nat)
      requires Valid()
      modifies this
      ensures Valid() && View() == Do(old(View()), Register(kind, event, shots))
      ensures id == old(nextHook) && id !in old(tallies) && tallies[id] == Tally(kind, event, shots, 0, 0)
    {
      DoIsConsistent(View(), Register(kind, event, shots));
      id := nextHook;
      nextHook := nextHook + 1;
      hooks := hooks + [Hook(id, kind, event, shots)];
      tallies := tallies[id := Tally(kind, event, shots, 0, 0)];
    }

    method CancelHook(id: nat)
      requires Valid() && 1 <= id < nextHook
      modifies this`hooks, this`cancelled
      ensures Valid() && View() == Do(old(View()), Cancel(id)) && id in cancelled
    {
      DoIsConsistent(View(), Cancel(id));
      cancelled := cancelled + {id};
      hooks := Filter(hooks, (h: Hook) => h.id != id);
    }

    method ClearHooks(kind: string, event: int)
      requires Valid()
      modifies this`hooks, this`cancelled
      ensures Valid() && View() == Do(old(View()), Clear(kind, event))
    {
      DoIsConsistent(View(), Clear(kind, event));
      cancelled := cancelled + ClearedIds(hooks, kind, event);
      hooks := Filter(hooks, (h: Hook) => !Cleared(h, kind, event));
    }

    /** Runs one request. */
    method PerformOne(action: Action)
      requires Valid()
      modifies this
      ensures Valid() && View() == Do(old(View()), action)
    {
      hide Consistent;
      match action
      case Register(kind, event, shots) =>
        var _ := RegisterHook(kind, event, shots);
      case Cancel(id) =>
        if 1 <= id < nextHook {
          CancelHook(id);
        }
      case Clear(kind, event) =>
        ClearHooks(kind, event);
    }

    /** Runs a callback's requests in order. */
    method Perform(actions: seq<Action>)
      requires Valid()
      modifies this
      ensures Valid() && View() == DoAll(old(View()), actions)
    {
      hide Consistent, Do;
      for i := 0 to |actions|
        invariant Valid() && View() == DoAll(old(View()), actions[..i])
      {
        assert actions[..i + 1][..i] == actions[..i];
        PerformOne(actions[i]);
      }
      assert actions[..|actions|] == actions;
    }

    /** Calls the matching hooks in registration order. `fired` lists the hooks called. */
    method Trigger(kind: string, event: int, pushable: bool, script: Script) returns (fired: seq<nat>)
      requires Valid()
      modifies this
      ensures Valid() && Triggered(old(View()), View(), kind, event, pushable, script, fired)
    {
      hide Consistent, Passed, Ready, Named, NamedBefore, Evolved, DoAll, Requests, TurnsTaken, Triggered, CountAll;
      fired := [];
      var initial := hooks;
      ghost var start := View();
      NothingPassed(start, kind, event, script);
      var remaining: seq<Hook> := [];
      for i := 0 to |initial|
        invariant Valid() && View() == DoAll(start, Requests(script, fired))
        invariant Passed(initial, i, kind, event, cancelled, remaining, fired)
        invariant forall id :: id in fired ==> Ready(start, id, kind, event)
        invariant !pushable ==> fired == [] && View() == start
        invariant pushable ==> TurnsTaken(start, i, kind, event, script, fired)
      {
        var hook := initial[i];
        PassedBelow(initial, i, kind, event, cancelled, remaining, fired);
        if hook.id in cancelled {
          PassedSkip(initial, i, kind, event, cancelled, remaining, fired);
          if pushable {
            TurnRefused(start, i, kind, event, script, fired);
          }
          continue;
        }
        if hook.kind != kind || hook.event != event {
          PassedKeep(initial, i, kind, event, cancelled, remaining, fired);
          if pushable {
            NotItsTurn(start, i, kind, event, script, fired);
          }
          remaining := remaining + [hook];
          continue;
        }
        var remove := hook.shots == 1;
        if hook.shots > 1 {
          hook := hook.(shots := hook.shots - 1);
        }
        if !pushable {
          NothingHappened(start, kind, event, script);
          return;
        }
        ghost var before := View();
        MarksStay(before, script(hook.id));
        TurnTaken(start, i, kind, event, script, fired);
        Perform(script(hook.id));
        RequestsNext(start, script, fired, hook.id);
        var kept := if !remove && hook.id !in cancelled then remaining + [hook] else remaining;
        PassedFire(initial, i, kind, event, before.cancelled, cancelled, remaining, fired, kept);
        fired := fired + [hook.id];
        remaining := kept;
      }
      DoAllIsConsistent(start, Requests(script, fired));
      ReadyIsLive(start, kind, event);
      ghost var asked := View();
      Install(initial, start, kind, event, pushable, remaining, fired);
      TriggerEnded(start, asked, View(), kind, event, pushable, script, fired);
    }

    /** The end of a Trigger: the hooks the pass left, then those registered meanwhile that are still wanted. */
    method Install(initial: seq<Hook>, ghost start: Snapshot, kind: string, event: int, ghost calling: bool,
                   remaining: seq<Hook>, ghost fired: seq<nat>)
      requires Valid() && Evolved(start, View()) && start.hooks == initial && (calling || fired == [])
      requires start.Valid() && Passed(initial, |initial|, kind, event, cancelled, remaining, fired)
      requires forall id :: id in fired ==> id !in start.cancelled
      modifies this`hooks, this`tallies
      ensures Valid() && Increasing(fired)
      ensures tallies == CountAll(old(tallies), start.next, kind, event, calling, fired)
    {
      var initialIds := set h | h in initial :: h.id;
      var gone := cancelled;
      var added := Filter(hooks, (h: Hook) => h.id !in initialIds && h.id !in gone);
      FilterKeepsOrder(hooks, (h: Hook) => h.id !in initialIds && h.id !in gone);
      PassedIsConsistent(initial, start.cancelled, start.next, start.tallies, hooks, cancelled, nextHook, tallies,
                         kind, event, calling, remaining, fired, added);
      hooks := remaining + added;
      tallies := CountAll(tallies, start.next, kind, event, calling, fired);
    }
  }
}
