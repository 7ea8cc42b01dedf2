/** Eye of the Storm: four towers that yield resources, and one flag that is worth more the more towers are held. */
module EyeOfTheStorm {
  import opened ResourceClock
  import opened Wrappers

  const TOWERS: nat := 4

  datatype Team = Alliance | Horde
  datatype Tower = Neutral | ControlledAlliance | ControlledHorde
  datatype FlagState = AtCenter | Carried | Dropped

  /** The flag as the game sees it: in the middle, with a player, or on the ground as some object. */
  datatype Flag = Central | With(player: nat) | Lying(gameObject: nat)

  function FlagOf(state: FlagState, carrier: nat, dropped: nat): Flag
  {
    match state
    case AtCenter => Central
    case Carried => With(carrier)
    case Dropped => Lying(dropped)
  }

  const FLAG_CENTER: nat := 184141
  const FLAG_DROPPED: nat := 184142

  /** The tower a banner stands for; three banners stand for each. */
  function TowerOf(entry: nat): (t: Option<nat>)
    ensures t.Some? ==> t.value < TOWERS && entry != FLAG_CENTER && entry != FLAG_DROPPED
  {
    if 184080 <= entry <= 184083 then Some(entry - 184080)
    else if 184084 <= entry <= 184087 then Some(entry - 184084)
    else if 184088 <= entry <= 184091 then Some(entry - 184088)
    else None
  }

  function ControlledBy(t: Team): Tower
  {
    if t == Alliance then ControlledAlliance else ControlledHorde
  }

  /** The number of towers in that state. */
  function Count(towers: seq<Tower>, t: Tower): nat
  {
    multiset(towers)[t]
  }

  lemma CountIsBounded(towers: seq<Tower>)
    ensures Count(towers, ControlledAlliance) + Count(towers, ControlledHorde) <= |towers|
    ensures forall i :: 0 <= i < |towers| ==> Count(towers, towers[i]) > 0
  {
    var m := multiset(towers);
    var two := multiset{}[ControlledAlliance := m[ControlledAlliance]][ControlledHorde := m[ControlledHorde]];
    assert m == m[ControlledAlliance := 0][ControlledHorde := 0] + two;
    assert |towers| == |m|;
    forall i | 0 <= i < |towers| ensures Count(towers, towers[i]) > 0 {
      assert towers[i] in m;
    }
  }

  lemma TowerChanged(was: seq<Tower>, i: nat, x: Tower)
    requires i < |was| == TOWERS
    ensures forall t ::
              Count(was[i := x], t) + (if was[i] == t then 1 else 0) == Count(was, t) + if x == t then 1 else 0
    ensures Count(was, was[i]) > 0
    ensures Count(was[i := x], ControlledAlliance) <= TOWERS && Count(was[i := x], ControlledHorde) <= TOWERS
  {
  }

  /** Every second counts once a tower is held. */
  function Interval(towers: nat): nat
  {
    if 1 <= towers <= TOWERS then 1000 else 0
  }

  function Points(towers: nat): (p: nat)
    ensures Interval(towers) > 0 ==> p > 0
  {
    match towers
    case 1 => 1
    case 2 => 2
    case 3 => 5
    case 4 => 10
    case _ => 0
  }

  /** What a captured flag is worth. */
  function FlagPoints(towers: nat): nat
  {
    match towers
    case 0 => 0
    case 1 => 75
    case 2 => 85
    case 3 => 100
    case _ => 500
  }

  /** A tower has one banner for Alliance, one for Horde and one for nobody, and nothing else names it. */
  lemma BannersNameTowers(entry: nat, tower: nat)
    ensures TowerOf(entry) == Some(tower) <==>
              tower < 4 && (entry == 184080 + tower || entry == 184084 + tower || entry == 184088 + tower)
  {
  }

  /** What a second is worth to a side by the towers that it holds; without a tower its clock stands still. */
  lemma PaceByTowers(towers: nat)
    requires towers <= 4
    ensures if towers == 0 then Interval(towers) == 0
            else Interval(towers) == 1000 && Points(towers) == [1, 2, 5, 10][towers - 1]
  {
  }

  /** A side's resources after a capture, capped at the maximum. */
  function Scored(resources: nat, scores: bool, towers: nat): nat
  {
    if !scores then resources
    else if resources + FlagPoints(towers) < MAX_RESOURCES then resources + FlagPoints(towers)
    else MAX_RESOURCES
  }

  class Match {
    const Towers: array<Tower>
    var AllianceResources: nat
    var HordeResources: nat
    var AllianceTowersCount: nat
    var HordeTowersCount: nat
    var AllianceAccumMs: nat
    var HordeAccumMs: nat
    var Winner: int
    var State: FlagState
    var FlagCarrierGUID: nat
    var FlagDroppedGUID: nat

    function ClockNow(): Clock
      reads this
    {
      Clock(Side(Interval(AllianceTowersCount), Points(AllianceTowersCount), AllianceResources, AllianceAccumMs),
            Side(Interval(HordeTowersCount), Points(HordeTowersCount), HordeResources, HordeAccumMs), Winner)
    }

    function FlagNow(): Flag
      reads this
    {
      FlagOf(State, FlagCarrierGUID, FlagDroppedGUID)
    }

    /** The flag's state says exactly where it is: somebody carries it, or it lies somewhere, or neither. */
    predicate FlagIsSomewhere()
      reads this
    {
      (State == Carried <==> FlagCarrierGUID != 0) && (State == Dropped <==> FlagDroppedGUID != 0)
    }

    ghost predicate Valid()
      reads this, Towers
    {
      Towers.Length == TOWERS && FlagIsSomewhere() &&
      AllianceTowersCount == Count(Towers[..], ControlledAlliance) &&
      HordeTowersCount == Count(Towers[..], ControlledHorde) &&
      GoodClock(ClockNow()) && (Winner < 0 ==> AllianceAccumMs < 1000 && HordeAccumMs < 1000)
    }

    constructor ()
      ensures Valid() && Winner == ONGOING && FlagNow() == Central
    {
      Towers := new Tower[TOWERS](_ => Neutral);
      AllianceResources, HordeResources := 0, 0;
      AllianceTowersCount, HordeTowersCount := 0, 0;
      AllianceAccumMs, HordeAccumMs := 0, 0;
      Winner := ONGOING;
      State, FlagCarrierGUID, FlagDroppedGUID := AtCenter, 0, 0;
      new;
      assert forall t :: t in Towers[..] ==> t == Neutral;
    }

    /** The flag in the middle is taken up. */
    method UseCenterFlag(guid: nat, inRange: bool)
      requires Valid() && guid != 0
      modifies this`State, this`FlagCarrierGUID
      ensures Valid()
      ensures FlagNow() == if old(Winner) < 0 && old(FlagNow()) == Central && inRange then With(guid)
                           else old(FlagNow())
    {
      if Winner >= 0 || State != AtCenter || !inRange {
        return;
      }
      State := Carried;
      FlagCarrierGUID := guid;
    }

    /** A flag on the ground is taken up; how far away it lies is not asked. */
    method UseDroppedFlag(guid: nat)
      requires Valid() && guid != 0
      modifies this`State, this`FlagCarrierGUID, this`FlagDroppedGUID
      ensures Valid()
      ensures FlagNow() == if old(Winner) < 0 && old(FlagNow()).Lying? then With(guid) else old(FlagNow())
    {
      if Winner >= 0 || State != Dropped {
        return;
      }
      FlagDroppedGUID := 0;
      State := Carried;
      FlagCarrierGUID := guid;
    }

    /** A carrier who dies or leaves drops the flag, which lies there as the object `spawned`; even after the end. */
    method PlayerGone(guid: nat, spawned: nat)
      requires Valid() && guid != 0 && spawned != 0
      modifies this`State, this`FlagCarrierGUID, this`FlagDroppedGUID
      ensures Valid() && FlagNow() == if old(FlagNow()) == With(guid) then Lying(spawned) else old(FlagNow())
    {
      if FlagCarrierGUID == guid {
        FlagCarrierGUID := 0;
        State := Dropped;
        FlagDroppedGUID := spawned;
      }
    }

    /** A return timer runs out; it may be one that was stopped too late, of an earlier drop. */
    method ReturnFlag()
      requires Valid()
      modifies this`State, this`FlagDroppedGUID
      ensures Valid() && FlagNow() == if old(FlagNow()).Lying? then Central else old(FlagNow())
    {
      if State == Dropped {
        FlagDroppedGUID := 0;
        State := AtCenter;
      }
    }

    /** A player uses an object: the flag in the middle, the flag on the ground, or a tower's banner. */
    method UseGameObject(entry: nat, guid: nat, team: Team, inRange: bool) returns (handled: bool, captured: bool)
      requires Valid() && guid != 0
      modifies this, Towers
      ensures Valid()
      ensures handled <==> old(Winner) >= 0 || entry == FLAG_CENTER || entry == FLAG_DROPPED || TowerOf(entry).Some?
      ensures old(Winner) >= 0 ==>
                FlagNow() == old(FlagNow()) && Towers[..] == old(Towers[..]) && ClockNow() == old(ClockNow())
      ensures entry == FLAG_CENTER && old(Winner) < 0 ==>
                FlagNow() == (if old(FlagNow()) == Central && inRange then With(guid) else old(FlagNow())) &&
                Towers[..] == old(Towers[..])
      ensures entry == FLAG_DROPPED && old(Winner) < 0 ==>
                FlagNow() == (if old(FlagNow()).Lying? then With(guid) else old(FlagNow())) &&
                Towers[..] == old(Towers[..])
      ensures TowerOf(entry).Some? && old(Winner) < 0 ==>
                FlagNow() == (if captured then Central else old(FlagNow())) &&
                Towers[..] ==
                if inRange then old(Towers[..])[TowerOf(entry).value := ControlledBy(team)] else old(Towers[..])
      ensures captured <==> old(Winner) < 0 && inRange && TowerOf(entry).Some? && old(FlagNow()) == With(guid) &&
                            old(Towers[..])[TowerOf(entry).value] == ControlledBy(team)
      // only a capture scores, and only towers set the pace of the clock
      ensures !handled ==> FlagNow() == old(FlagNow())
      ensures !handled || entry == FLAG_CENTER || entry == FLAG_DROPPED ==>
                ClockNow() == old(ClockNow()) && Towers[..] == old(Towers[..])
      ensures AllianceAccumMs == old(AllianceAccumMs) && HordeAccumMs == old(HordeAccumMs)
      ensures !captured ==>
                Winner == old(Winner) && AllianceResources == old(AllianceResources) &&
                HordeResources == old(HordeResources)
      ensures captured ==>
                var held := Count(old(Towers[..]), ControlledBy(team));
                FlagPoints(held) >= 75 &&
                AllianceResources == Scored(old(AllianceResources), team == Alliance, held) &&
                HordeResources == Scored(old(HordeResources), team == Horde, held)
    {
      hide Count, Points, Interval, GoodClock;
      captured := false;
      if Winner >= 0 {
        return true, false;
      }
      if entry == FLAG_CENTER {
        UseCenterFlag(guid, inRange);
        return true, false;
      }
      if entry == FLAG_DROPPED {
        UseDroppedFlag(guid);
        return true, false;
      }
      var tower := TowerOf(entry);
      if tower == None {
        return false, false;
      }
      captured := UseBanner(tower.value, guid, team, inRange);
      return true, captured;
    }

    /** A carrier at a tower of the own side captures the flag, for at least 75 points; anyone else takes the tower. */
    method UseBanner(tower: nat, guid: nat, team: Team, inRange: bool) returns (captured: bool)
      requires Valid() && tower < TOWERS && guid != 0
      modifies this, Towers
      ensures Valid()
      ensures captured <==>
                old(Winner) < 0 && inRange && old(FlagNow()) == With(guid) && old(Towers[tower]) == ControlledBy(team)
      ensures FlagNow() == if captured then Central else old(FlagNow())
      ensures Towers[..] ==
              if old(Winner) < 0 && inRange then old(Towers[..])[tower := ControlledBy(team)] else old(Towers[..])
      ensures AllianceAccumMs == old(AllianceAccumMs) && HordeAccumMs == old(HordeAccumMs)
      ensures !captured ==>
                Winner == old(Winner) && AllianceResources == old(AllianceResources) &&
                HordeResources == old(HordeResources)
      ensures captured ==>
                var held := Count(old(Towers[..]), ControlledBy(team));
                FlagPoints(held) >= 75 &&
                AllianceResources == Scored(old(AllianceResources), team == Alliance, held) &&
                HordeResources == Scored(old(HordeResources), team == Horde, held)
    {
      hide Count, Points, FlagPoints, GoodClock;
      captured := false;
      if Winner >= 0 || !inRange {
        return;
      }
      ghost var was := Towers[..];
      CountIsBounded(was);
      if State == Carried && FlagCarrierGUID == guid && Towers[tower] == ControlledBy(team) {
        captured := true;
        assert was == was[tower := ControlledBy(team)];
        CaptureFlag(team);
        return;
      }
      ClaimTower(tower, team);
    }

    /** The tower becomes the side's, and the counts follow. */
    method ClaimTower(tower: nat, team: Team)
      requires Valid() && tower < TOWERS && Winner < 0
      modifies Towers, this`AllianceTowersCount, this`HordeTowersCount
      ensures Valid() && Towers[..] == old(Towers[..])[tower := ControlledBy(team)]
    {
      hide Count, Points, FlagPoints;
      ghost var was := Towers[..];
      TowerChanged(was, tower, ControlledBy(team));
      if team == Alliance {
        if Towers[tower] != ControlledAlliance {
          if Towers[tower] == ControlledHorde && HordeTowersCount > 0 {
            HordeTowersCount := HordeTowersCount - 1;
          }
          Towers[tower] := ControlledAlliance;
          AllianceTowersCount := AllianceTowersCount + 1;
        }
      } else {
        if Towers[tower] != ControlledHorde {
          if Towers[tower] == ControlledAlliance && AllianceTowersCount > 0 {
            AllianceTowersCount := AllianceTowersCount - 1;
          }
          Towers[tower] := ControlledHorde;
          HordeTowersCount := HordeTowersCount + 1;
        }
      }
      assert Towers[..] == was[tower := ControlledBy(team)];
    }

    method CaptureFlag(team: Team)
      requires Valid() && Winner < 0 && State == Carried
      requires Count(Towers[..], ControlledBy(team)) > 0
      modifies this
      ensures Valid() && FlagNow() == Central
      ensures AllianceAccumMs == old(AllianceAccumMs) && HordeAccumMs == old(HordeAccumMs)
      ensures var held := Count(Towers[..], ControlledBy(team));
              FlagPoints(held) >= 75 &&
              AllianceResources == Scored(old(AllianceResources), team == Alliance, held) &&
              HordeResources == Scored(old(HordeResources), team == Horde, held)
      // in numbers, by the towers held
      ensures var side := if team == Alliance then ControlledAlliance else ControlledHorde;
              var held := Count(Towers[..], side);
              var worth := if held == 1 then 75 else if held == 2 then 85 else if held == 3 then 100 else 500;
              var before := if team == Alliance then old(AllianceResources) else old(HordeResources);
              var after := if before + worth < 1600 then before + worth else 1600;
              if team == Alliance then AllianceResources == after && HordeResources == old(HordeResources)
              else HordeResources == after && AllianceResources == old(AllianceResources)
    {
      CountIsBounded(Towers[..]);
      FlagCarrierGUID := 0;
      State := AtCenter;
      var held := if team == Alliance then AllianceTowersCount else HordeTowersCount;
      if held > 4 {
        held := 4;
      }
      var points := FlagPoints(held);
      if team == Alliance {
        AllianceResources := AllianceResources + points;
        if AllianceResources >= MAX_RESOURCES {
          AllianceResources := MAX_RESOURCES;
          Winner := 0;
        }
      } else {
        HordeResources := HordeResources + points;
        if HordeResources >= MAX_RESOURCES {
          HordeResources := MAX_RESOURCES;
          Winner := 1;
        }
      }
    }

    /** Time passes: Alliance is paid, then Horde, unless the match is decided. */
    method TickResources(elapsed: nat)
      requires Valid()
      modifies this
      ensures Valid() && ClockNow() == Ticked(old(ClockNow()), elapsed) && FlagNow() == old(FlagNow())
      ensures AllianceTowersCount == old(AllianceTowersCount) && HordeTowersCount == old(HordeTowersCount)
    {
      hide Points, Ticked, Count;
      TickedIsGood(ClockNow(), elapsed);
      TickedKeepsRates(ClockNow(), elapsed);
      var d := Tick(ClockNow(), elapsed);
      AllianceResources, AllianceAccumMs := d.alliance.resources, d.alliance.accum;
      HordeResources, HordeAccumMs := d.horde.resources, d.horde.accum;
      Winner := d.winner;
    }
  }
}
