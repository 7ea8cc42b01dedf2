/** Arathi Basin: five nodes to hold, and the resources that held nodes yield. */
module ArathiBasin {
  import opened ResourceClock
  import opened Wrappers

  const NODES: nat := 5

  datatype Team = Alliance | Horde
  datatype NodeState = Neutral | ContestedAlliance | ContestedHorde | ControlledAlliance | ControlledHorde
  datatype Node = Node(state: NodeState, prev: NodeState, assaultedBy: nat)

  // ---------- Nodes ----------

  /** A node as the game sees it: who holds it, and who is claiming it. */
  datatype Standing = Standing(holder: Option<Team>, claimant: Option<Team>)

  function Owner(s: NodeState): Option<Team>
  {
    match s
    case ControlledAlliance => Some(Alliance)
    case ControlledHorde => Some(Horde)
    case _ => None
  }

  function StandingOf(n: Node): Standing
  {
    match n.state
    case ContestedAlliance => Standing(Owner(n.prev), Some(Alliance))
    case ContestedHorde => Standing(Owner(n.prev), Some(Horde))
    case _ => Standing(Owner(n.state), None)
  }

  /** A contested node was neutral or the other side's before. */
  predicate Sound(n: Node)
  {
    (n.state == ContestedAlliance ==> n.prev == Neutral || n.prev == ControlledHorde) &&
    (n.state == ContestedHorde ==> n.prev == Neutral || n.prev == ControlledAlliance)
  }

  /** The rule of the banner, the same for both sides: the holder clears a claim, anybody else makes one. */
  function Assault(s: Standing, t: Team): Standing
  {
    if s.claimant == Some(t) then s else if s.holder == Some(t) then s.(claimant := None) else s.(claimant := Some(t))
  }

  /** A claim that runs its time makes the claimant the holder. */
  function Capture(s: Standing, t: Team): Standing
  {
    if s.claimant == Some(t) then Standing(Some(t), None) else s
  }

  // ---------- Banners ----------

  /** The banner object that shows a node in a state. */
  function EntryOf(node: nat, s: NodeState): nat
  {
    if node >= NODES then 0
    else
      match s
      case Neutral => 180087 + node
      case ContestedAlliance => 180100 + node
      case ContestedHorde => 180105 + node
      case ControlledAlliance => 180110 + node
      case ControlledHorde => 180115 + node
  }

  function NodeOf(entry: nat): Option<nat>
  {
    if 180087 <= entry <= 180091 then Some(entry - 180087)
    else if 180100 <= entry <= 180104 then Some(entry - 180100)
    else if 180105 <= entry <= 180109 then Some(entry - 180105)
    else if 180110 <= entry <= 180114 then Some(entry - 180110)
    else if 180115 <= entry <= 180119 then Some(entry - 180115)
    else None
  }

  /** A banner's entry gives its node back, whatever the state; and no other object passes for a banner. */
  lemma BannersNameNodes(entry: nat, node: nat)
    ensures NodeOf(entry) == Some(node) <==> node < NODES && exists s :: EntryOf(node, s) == entry
    ensures NodeOf(entry) == Some(node) <==>
              node < 5 && (entry == 180087 + node || entry == 180100 + node || entry == 180105 + node ||
                           entry == 180110 + node || entry == 180115 + node)
  {
    if NodeOf(entry) == Some(node) {
      var s := if entry <= 180091 then Neutral
               else if entry <= 180104 then ContestedAlliance
               else if entry <= 180109 then ContestedHorde
               else if entry <= 180114 then ControlledAlliance else ControlledHorde;
      assert EntryOf(node, s) == entry;
    }
  }

  lemma NodeIsThere(entry: nat)
    ensures NodeOf(entry).Some? ==> NodeOf(entry).value < NODES
  {
  }

  predicate Controls(s: Standing, t: Team)
  {
    s == Standing(Some(t), None)
  }

  /** A defended node is what it was before the assault. */
  lemma DefenceUndoesAssault(s: Standing, t: Team, u: Team)
    requires Controls(s, t)
    ensures Assault(Assault(s, u), t) == s
    ensures u != t ==> Capture(Assault(s, u), u) == Standing(Some(u), None)
  {
  }

  /**
   What the states of a node show: only the two controlled states are anybody's, and a contested one has a claimant.
   */
  lemma StandingShows(n: Node)
    requires Sound(n)
    ensures Controls(StandingOf(n), Alliance) <==> n.state == ControlledAlliance
    ensures Controls(StandingOf(n), Horde) <==> n.state == ControlledHorde
    ensures StandingOf(n).claimant == Some(Alliance) <==> n.state == ContestedAlliance
    ensures StandingOf(n).claimant == Some(Horde) <==> n.state == ContestedHorde
    ensures StandingOf(n).claimant.Some? ==> StandingOf(n).holder != StandingOf(n).claimant
    ensures StandingOf(n) == Standing(None, None) <==> n.state == Neutral
  {
  }

  /** A banner used by the side that holds the node leaves no claim on it, and used by anybody else theirs. */
  lemma AssaultMeans(n: Node, t: Team)
    requires Sound(n)
    ensures var s := StandingOf(n);
            Assault(s, t) == Standing(s.holder, if s.holder == Some(t) then None else Some(t))
  {
    StandingShows(n);
  }

  /** The number of nodes that a side controls. */
  function Held(nodes: seq<Node>, t: Team): nat
  {
    if nodes == [] then 0 else
      Held(nodes[..|nodes| - 1], t) + if Controls(StandingOf(nodes[|nodes| - 1]), t) then 1 else 0
  }

  lemma {:induction false} HeldUpdate(nodes: seq<Node>, i: nat, n: Node, t: Team)
    requires i < |nodes|
    ensures Held(nodes[i := n], t) + (if Controls(StandingOf(nodes[i]), t) then 1 else 0) ==
              Held(nodes, t) + if Controls(StandingOf(n), t) then 1 else 0
  {
    hide StandingOf;
    var last := |nodes| - 1;
    if i == last {
      assert nodes[i := n][..last] == nodes[..last];
    } else {
      assert nodes[i := n][..last] == nodes[..last][i := n];
      HeldUpdate(nodes[..last], i, n, t);
    }
  }

  lemma {:induction false} HeldIsBounded(nodes: seq<Node>, t: Team)
    ensures Held(nodes, t) <= |nodes|
  {
    if nodes != [] {
      HeldIsBounded(nodes[..|nodes| - 1], t);
    }
  }

  // ---------- Rates ----------

  /** Milliseconds between two yields, and the points of one. */
  function Interval(bases: nat): nat
  {
    match bases
    case 1 => 12000
    case 2 => 9000
    case 3 => 6000
    case 4 => 3000
    case 5 => 1000
    case _ => 0
  }

  function Points(bases: nat): (p: nat)
    ensures Interval(bases) > 0 ==> p > 0
  {
    match bases
    case 1 => 10
    case 2 => 10
    case 3 => 10
    case 4 => 10
    case 5 => 30
    case _ => 0
  }

  /** How long a side waits for its next points, and how many they are: 30 for all five bases and 10 below. */
  lemma PaceByBases(bases: nat)
    requires bases <= 5
    ensures Interval(bases) == [0, 12000, 9000, 6000, 3000, 1000][bases]
    ensures bases > 0 ==> Points(bases) == if bases == 5 then 30 else 10
  {
  }

  // ---------- The match ----------

  lemma {:induction false} NobodyHolds(nodes: seq<Node>, t: Team)
    requires forall i :: 0 <= i < |nodes| ==> StandingOf(nodes[i]) == Standing(None, None)
    ensures Held(nodes, t) == 0
  {
    if nodes != [] {
      NobodyHolds(nodes[..|nodes| - 1], t);
    }
  }

  /** What one node's change does to both counts. */
  lemma NodeChanged(was: seq<Node>, i: nat, n: Node)
    requires i < |was| == NODES
    ensures forall t :: Held(was[i := n], t) + Weight(was[i], t) == Held(was, t) + Weight(n, t)
  {
    hide Held;
    forall t ensures Held(was[i := n], t) + Weight(was[i], t) == Held(was, t) + Weight(n, t) {
      HeldUpdate(was, i, n, t);
    }
  }

  function Weight(n: Node, t: Team): nat
  {
    if StandingOf(n) == Standing(Some(t), None) then 1 else 0
  }

  /** A side whose count of bases changes starts its interval anew. */
  predicate Restarted(before: nat, after: nat, accumBefore: nat, accumAfter: nat)
  {
    accumAfter == if before == after then accumBefore else 0
  }

  function ClockOf(a: nat, ra: nat, xa: nat, h: nat, rh: nat, xh: nat, winner: int): Clock
  {
    Clock(Side(Interval(a), Points(a), ra, xa), Side(Interval(h), Points(h), rh, xh), winner)
  }

  /** New counts and restarted intervals keep a running clock in step. */
  lemma CountsChange(a: nat, ra: nat, xa: nat, h: nat, rh: nat, xh: nat, winner: int, b: nat, xb: nat, i: nat, xi: nat)
    requires GoodClock(ClockOf(a, ra, xa, h, rh, xh, winner)) && winner < 0
    requires Restarted(a, b, xa, xb) && Restarted(h, i, xh, xi)
    ensures GoodClock(ClockOf(b, ra, xb, i, rh, xi, winner))
  {
    hide Interval, Points;
  }

  class Match {
    const Nodes: array<Node>
    var AllianceResources: nat
    var HordeResources: nat
    var AllianceBasesCount: nat
    var HordeBasesCount: nat
    var AllianceAccumMs: nat
    var HordeAccumMs: nat
    var Winner: int

    function ClockNow(): Clock
      reads this
    {
      ClockOf(AllianceBasesCount, AllianceResources, AllianceAccumMs, HordeBasesCount, HordeResources, HordeAccumMs,
              Winner)
    }

    /** The base counts are what the nodes say, whatever callbacks fired, and the clock is in step. */
    ghost predicate Valid()
      reads this, Nodes
    {
      Nodes.Length == NODES && (forall i :: 0 <= i < NODES ==> Sound(Nodes[i])) &&
      AllianceBasesCount == Held(Nodes[..], Alliance) && HordeBasesCount == Held(Nodes[..], Horde) &&
      GoodClock(ClockNow()) &&
      (Winner < 0 && AllianceBasesCount == 0 ==> AllianceAccumMs == 0) &&
      (Winner < 0 && HordeBasesCount == 0 ==> HordeAccumMs == 0)
    }

    constructor ()
      ensures Valid() && Winner == ONGOING
      ensures forall i :: 0 <= i < NODES ==> StandingOf(Nodes[i]) == Standing(None, None)
    {
      Nodes := new Node[NODES](_ => Node(Neutral, Neutral, 0));
      AllianceResources, HordeResources := 0, 0;
      AllianceBasesCount, HordeBasesCount := 0, 0;
      AllianceAccumMs, HordeAccumMs := 0, 0;
      Winner := ONGOING;
      new;
      NobodyHolds(Nodes[..], Alliance);
      NobodyHolds(Nodes[..], Horde);
    }

    /** A player uses a banner. Its entry tells the node; what state the entry stands for is not looked at. */
    method UseBanner(entry: nat, guid: nat, team: Team, inRange: bool) returns (handled: bool)
      requires Valid()
      modifies this, Nodes
      ensures Valid() && handled == NodeOf(entry).Some?
      ensures forall i: nat :: i < NODES ==>
                var here := NodeOf(entry) == Some(i) && old(Winner) < 0;
                Nodes[i].assaultedBy == (if here then guid else old(Nodes[i].assaultedBy)) &&
                (var s := old(StandingOf(Nodes[i]));
                 StandingOf(Nodes[i]) == if here && inRange then Assault(s, team) else s)
      ensures Winner == old(Winner) && AllianceResources == old(AllianceResources) &&
              HordeResources == old(HordeResources)
      ensures Restarted(old(AllianceBasesCount), AllianceBasesCount, old(AllianceAccumMs), AllianceAccumMs)
      ensures Restarted(old(HordeBasesCount), HordeBasesCount, old(HordeAccumMs), HordeAccumMs)
    {
      hide Held, ClockOf, GoodClock, StandingOf, NodeOf;
      var node := NodeOf(entry);
      if node == None {
        return false;
      }
      NodeIsThere(entry);
      UseNode(node.value, guid, team, inRange);
      return true;
    }

    /** The use of one node's banner. Even out of range the player is put down as its assailant. */
    method UseNode(node: nat, guid: nat, team: Team, inRange: bool)
      requires Valid() && node < NODES
      modifies this, Nodes
      ensures Valid() && forall i :: 0 <= i < NODES && i != node ==> Nodes[i] == old(Nodes[i])
      ensures old(Winner) >= 0 ==> Nodes[node] == old(Nodes[node])
      ensures old(Winner) < 0 ==> Nodes[node].assaultedBy == guid
      ensures var s := old(StandingOf(Nodes[node]));
              StandingOf(Nodes[node]) == if old(Winner) < 0 && inRange then Assault(s, team) else s
      ensures Winner == old(Winner) && AllianceResources == old(AllianceResources) &&
              HordeResources == old(HordeResources)
      ensures Restarted(old(AllianceBasesCount), AllianceBasesCount, old(AllianceAccumMs), AllianceAccumMs)
      ensures Restarted(old(HordeBasesCount), HordeBasesCount, old(HordeAccumMs), HordeAccumMs)
    {
      hide Held, Controls, ClockOf, GoodClock;
      ghost var a, xa, h, xh := AllianceBasesCount, AllianceAccumMs, HordeBasesCount, HordeAccumMs;
      if Winner >= 0 {
        return;
      }
      ghost var was := Nodes[..];
      Nodes[node] := Nodes[node].(assaultedBy := guid);
      if inRange {
        match Nodes[node].state {
          case Neutral =>
            Nodes[node] := Nodes[node].(
              state := if team == Alliance then ContestedAlliance else ContestedHorde, prev := Neutral);
          case ControlledAlliance =>
            if team == Horde {
              Nodes[node] := Nodes[node].(state := ContestedHorde, prev := ControlledAlliance);
              if AllianceBasesCount > 0 {
                AllianceBasesCount := AllianceBasesCount - 1;
                AllianceAccumMs := 0;
              }
            }
          case ControlledHorde =>
            if team == Alliance {
              Nodes[node] := Nodes[node].(state := ContestedAlliance, prev := ControlledHorde);
              if HordeBasesCount > 0 {
                HordeBasesCount := HordeBasesCount - 1;
                HordeAccumMs := 0;
              }
            }
          case ContestedHorde =>
            if team == Alliance {
              if Nodes[node].prev == ControlledAlliance {
                Nodes[node] := Nodes[node].(state := ControlledAlliance);
                AllianceBasesCount := AllianceBasesCount + 1;
                AllianceAccumMs := 0;
              } else {
                Nodes[node] := Nodes[node].(state := ContestedAlliance);
              }
            }
          case ContestedAlliance =>
            if team == Horde {
              if Nodes[node].prev == ControlledHorde {
                Nodes[node] := Nodes[node].(state := ControlledHorde);
                HordeBasesCount := HordeBasesCount + 1;
                HordeAccumMs := 0;
              } else {
                Nodes[node] := Nodes[node].(state := ContestedHorde);
              }
            }
        }
      }
      assert Nodes[..] == was[node := Nodes[node]];
      NodeChanged(was, node, Nodes[node]);
      CountsChange(a, AllianceResources, xa, h, HordeResources, xh, Winner,
                   AllianceBasesCount, AllianceAccumMs, HordeBasesCount, HordeAccumMs);
    }

    /** A capture timer runs out. It may be a timer that was stopped too late: any node, any side, any time. */
    method CompleteNodeCapture(node: nat, team: Team) returns (credited: Option<nat>)
      requires Valid()
      modifies this, Nodes
      ensures Valid() && forall i :: 0 <= i < NODES && i != node ==> Nodes[i] == old(Nodes[i])
      ensures node < NODES && old(Winner) < 0 ==> StandingOf(Nodes[node]) == Capture(old(StandingOf(Nodes[node])), team)
      ensures node < NODES && old(Winner) >= 0 ==> Nodes[node] == old(Nodes[node])
      ensures credited == if old(Winner) < 0 && node < NODES && old(StandingOf(Nodes[node])).claimant == Some(team)
                          then Some(old(Nodes[node].assaultedBy)) else None
      ensures Winner == old(Winner) && AllianceResources == old(AllianceResources) &&
              HordeResources == old(HordeResources)
      ensures Restarted(old(AllianceBasesCount), AllianceBasesCount, old(AllianceAccumMs), AllianceAccumMs)
      ensures Restarted(old(HordeBasesCount), HordeBasesCount, old(HordeAccumMs), HordeAccumMs)
    {
      hide Held, Controls, ClockOf, GoodClock;
      ghost var a, xa, h, xh := AllianceBasesCount, AllianceAccumMs, HordeBasesCount, HordeAccumMs;
      credited := None;
      if Winner >= 0 || node >= NODES {
        return;
      }
      ghost var was := Nodes[..];
      if team == Alliance && Nodes[node].state == ContestedAlliance {
        Nodes[node] := Nodes[node].(state := ControlledAlliance, prev := ControlledAlliance);
        AllianceBasesCount := AllianceBasesCount + 1;
        credited := Some(Nodes[node].assaultedBy);
        AllianceAccumMs := 0;
      } else if team == Horde && Nodes[node].state == ContestedHorde {
        Nodes[node] := Nodes[node].(state := ControlledHorde, prev := ControlledHorde);
        HordeBasesCount := HordeBasesCount + 1;
        credited := Some(Nodes[node].assaultedBy);
        HordeAccumMs := 0;
      }
      assert Nodes[..] == was[node := Nodes[node]];
      NodeChanged(was, node, Nodes[node]);
      CountsChange(a, AllianceResources, xa, h, HordeResources, xh, Winner,
                   AllianceBasesCount, AllianceAccumMs, HordeBasesCount, HordeAccumMs);
    }

    /** Time passes: Alliance is paid, then Horde, unless the match is decided. */
    method TickResources(elapsed: nat)
      requires Valid()
      modifies this
      ensures Valid() && ClockNow() == Ticked(old(ClockNow()), elapsed)
      ensures AllianceBasesCount == old(AllianceBasesCount) && HordeBasesCount == old(HordeBasesCount)
    {
      hide Held, Interval, Points, Ticked, GoodClock;
      TickedIsGood(ClockNow(), elapsed);
      TickedKeepsRates(ClockNow(), elapsed);
      BasesPay(AllianceBasesCount, Nodes[..], Alliance);
      BasesPay(HordeBasesCount, Nodes[..], Horde);
      var d := Tick(ClockNow(), elapsed);
      AllianceResources, AllianceAccumMs := d.alliance.resources, d.alliance.accum;
      HordeResources, HordeAccumMs := d.horde.resources, d.horde.accum;
      Winner := d.winner;
    }

    static lemma BasesPay(bases: nat, nodes: seq<Node>, t: Team)
      requires |nodes| == NODES && bases == Held(nodes, t)
      ensures Interval(bases) == 0 <==> bases == 0
    {
      HeldIsBounded(nodes, t);
    }
  }
}
