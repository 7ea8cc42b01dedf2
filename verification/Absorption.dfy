/** Damage absorption: which shields a hit drains, in what order and by how much, and what it costs in mana. */
module Absorption {
  import opened Sequences

  const SCHOOL_ABSORB: nat := 69
  const MANA_SHIELD: nat := 72
  const MAGIC_ABSORB: nat := 256
  /** The largest damage whose mana price fits 32 bits. */
  const MAX_DAMAGE: nat := 2863311530

  datatype Shield = Shield(spell: nat, kind: nat, schools: bv32, amount: nat, stopped: bool)

  function Priority(s: Shield): nat
  {
    if s.kind == SCHOOL_ABSORB then (if s.schools != 0 && s.schools != 127 then 1 else 3)
    else if s.kind == MAGIC_ABSORB then 2
    else if s.kind == MANA_SHIELD then 4
    else 5
  }

  predicate Before(a: Shield, b: Shield)
  {
    if Priority(a) != Priority(b) then Priority(a) < Priority(b) else a.spell < b.spell
  }

  /** A mask of no school stands for all of them. */
  predicate Matches(schools: bv32, school: bv32)
  {
    schools == 0 || schools & school != 0
  }

  predicate Physical(school: bv32)
  {
    school & 1 != 0
  }

  /** Shields that absorb damage of this school at no price. */
  predicate Free(s: Shield, school: bv32)
  {
    (s.kind == SCHOOL_ABSORB || (s.kind == MAGIC_ABSORB && !Physical(school))) && Matches(s.schools, school)
  }

  function Min(a: nat, b: nat): nat
  {
    if a < b then a else b
  }

  /** The price of `damage` points in mana: one and a half each, rounded up. */
  function ManaFor(damage: nat): nat
  {
    (3 * damage + 1) / 2
  }

  lemma ManaIsRoundedUp(damage: nat)
    ensures 3 * damage <= 2 * ManaFor(damage) <= 3 * damage + 1
  {
  }

  /** How much of `damage` one shield takes when `mana` is left. */
  function Part(s: Shield, damage: nat, mana: nat, school: bv32): (p: nat)
    ensures p <= damage && p <= s.amount
  {
    if Free(s, school) then Min(s.amount, damage)
    else if s.kind == MANA_SHIELD && mana > 0 then
      Min(s.amount, if mana < ManaFor(damage) then Min(damage, 2 * mana / 3) else damage)
    else 0
  }

  /** The mana that part costs. */
  function Cost(s: Shield, damage: nat, mana: nat, school: bv32): nat
  {
    if Free(s, school) then 0 else ManaFor(Part(s, damage, mana, school))
  }

  /** A mana shield never asks for more mana than there is. */
  lemma CostIsCovered(s: Shield, damage: nat, mana: nat, school: bv32)
    ensures Cost(s, damage, mana, school) <= mana
    ensures mana < ManaFor(damage) ==> 2 * mana / 3 <= damage
  {
  }

  /** A mana shield takes the most that the damage, its amount and the mana allow. */
  lemma ManaPartIsTheMost(s: Shield, damage: nat, mana: nat, school: bv32, p: nat)
    requires s.kind == MANA_SHIELD
    ensures p <= Part(s, damage, mana, school) <==> p <= damage && p <= s.amount && ManaFor(p) <= mana
  {
  }

  /** What is kept of a shield that gave up `p`. */
  function Left(s: Shield, p: nat): seq<Shield>
    requires p <= s.amount
  {
    if s.amount > p then [s.(amount := s.amount - p)] else []
  }

  /** What a hit leaves: the shields that still hold something, the damage not absorbed, and the mana. */
  datatype Result = Result(left: seq<Shield>, remaining: nat, mana: nat)

  /** The hit runs down the sorted list. */
  function Absorb(l: seq<Shield>, damage: nat, mana: nat, school: bv32): (r: Result)
    ensures r.remaining <= damage && r.mana <= mana
  {
    if l == [] then Result([], damage, mana)
    else
      var p := Part(l[0], damage, mana, school);
      CostIsCovered(l[0], damage, mana, school);
      var rest := Absorb(l[1..], damage - p, mana - Cost(l[0], damage, mana, school), school);
      rest.(left := Left(l[0], p) + rest.left)
  }

  // ---------- Laws of a hit ----------

  function Total(l: seq<Shield>): nat
  {
    if l == [] then 0 else l[0].amount + Total(l[1..])
  }

  /** What the shields offer against this school at no price. */
  function Offer(l: seq<Shield>, school: bv32): nat
  {
    if l == [] then 0 else (if Free(l[0], school) then l[0].amount else 0) + Offer(l[1..], school)
  }

  lemma TotalWithLeft(s: Shield, p: nat, rest: seq<Shield>)
    requires p <= s.amount
    ensures Total(Left(s, p) + rest) == s.amount - p + Total(rest)
  {
    if s.amount > p {
      assert (Left(s, p) + rest)[1..] == rest;
    } else {
      assert Left(s, p) + rest == rest;
    }
  }

  /** Whatever the mix of shields, what the damage loses is what the shields lose. */
  lemma {:induction false} LossesBalance(l: seq<Shield>, damage: nat, mana: nat, school: bv32)
    ensures var r := Absorb(l, damage, mana, school);
            Total(l) - Total(r.left) == damage - r.remaining
  {
    hide Part, Cost, Left;
    if l != [] {
      var p := Part(l[0], damage, mana, school);
      CostIsCovered(l[0], damage, mana, school);
      var c := Cost(l[0], damage, mana, school);
      LossesBalance(l[1..], damage - p, mana - c, school);
      TotalWithLeft(l[0], p, Absorb(l[1..], damage - p, mana - c, school).left);
    }
  }

  /** The parts the mana shields took, in order. */
  function ManaParts(l: seq<Shield>, damage: nat, mana: nat, school: bv32): seq<nat>
  {
    if l == [] then [] else
      var p := Part(l[0], damage, mana, school);
      CostIsCovered(l[0], damage, mana, school);
      (if l[0].kind == MANA_SHIELD then [p] else []) +
      ManaParts(l[1..], damage - p, mana - Cost(l[0], damage, mana, school), school)
  }

  function Price(parts: seq<nat>): nat
  {
    if parts == [] then 0 else ManaFor(parts[0]) + Price(parts[1..])
  }

  lemma CostOfPart(s: Shield, damage: nat, mana: nat, school: bv32)
    ensures Cost(s, damage, mana, school) == if s.kind == MANA_SHIELD then ManaFor(Part(s, damage, mana, school)) else 0
  {
  }

  /** The mana lost is the sum, over the mana shields, of one and a half times the part taken, each rounded up. */
  lemma {:induction false} ManaIsPriced(l: seq<Shield>, damage: nat, mana: nat, school: bv32)
    ensures mana - Absorb(l, damage, mana, school).mana == Price(ManaParts(l, damage, mana, school))
  {
    hide Part, Cost, Left, ManaFor;
    if l != [] {
      var p := Part(l[0], damage, mana, school);
      CostIsCovered(l[0], damage, mana, school);
      CostOfPart(l[0], damage, mana, school);
      var rest := ManaParts(l[1..], damage - p, mana - Cost(l[0], damage, mana, school), school);
      ManaIsPriced(l[1..], damage - p, mana - Cost(l[0], damage, mana, school), school);
      assert ([p] + rest)[1..] == rest;
      assert [] + rest == rest;
    }
  }

  /** With no mana a shield takes what is free, and nothing is paid. */
  lemma PartWithoutMana(s: Shield, damage: nat, school: bv32)
    ensures Part(s, damage, 0, school) == if Free(s, school) then Min(s.amount, damage) else 0
    ensures Cost(s, damage, 0, school) == 0
  {
  }

  /** Without mana the hit absorbs exactly the smaller of the damage and the offer. */
  lemma {:induction false} AbsorbsTheOffer(l: seq<Shield>, damage: nat, school: bv32)
    ensures damage - Absorb(l, damage, 0, school).remaining == Min(damage, Offer(l, school))
  {
    hide Part, Cost, Left, Free;
    if l != [] {
      PartWithoutMana(l[0], damage, school);
      AbsorbsTheOffer(l[1..], damage - Part(l[0], damage, 0, school), school);
    }
  }

  /** What is taken from the shield at `k`: what the offer before it leaves of the damage, up to its own amount. */
  function Share(l: seq<Shield>, k: nat, damage: nat, school: bv32): (n: nat)
    requires k < |l|
    ensures n <= l[k].amount
  {
    var earlier := Offer(l[..k], school);
    if Free(l[k], school) && earlier < damage then Min(l[k].amount, damage - earlier) else 0
  }

  lemma {:induction false} OfferOfConcat(a: seq<Shield>, b: seq<Shield>, school: bv32)
    ensures Offer(a + b, school) == Offer(a, school) + Offer(b, school)
  {
    if a == [] {
      assert a + b == b;
    } else {
      assert (a + b)[1..] == a[1..] + b;
      OfferOfConcat(a[1..], b, school);
    }
  }

  /** The list after the hit, each shield reduced by its share and the empty ones dropped. */
  function Reduced(l: seq<Shield>, k: nat, damage: nat, school: bv32): seq<Shield>
    requires k <= |l|
    decreases |l| - k
  {
    if k == |l| then [] else Left(l[k], Share(l, k, damage, school)) + Reduced(l, k + 1, damage, school)
  }

  /** The damage that gets past the first `k` shields. */
  function Past(l: seq<Shield>, k: nat, damage: nat, school: bv32): nat
    requires k <= |l|
  {
    var earlier := Offer(l[..k], school);
    if earlier < damage then damage - earlier else 0
  }

  lemma PastStep(l: seq<Shield>, k: nat, damage: nat, school: bv32)
    requires k < |l|
    ensures var p := Part(l[k], Past(l, k, damage, school), 0, school);
            p == Share(l, k, damage, school) && Past(l, k + 1, damage, school) == Past(l, k, damage, school) - p
  {
    hide Part, Cost, Free;
    PartWithoutMana(l[k], Past(l, k, damage, school), school);
    assert l[..k + 1] == l[..k] + [l[k]];
    OfferOfConcat(l[..k], [l[k]], school);
    assert Offer([l[k]], school) == if Free(l[k], school) then l[k].amount else 0;
  }

  /** The first step of a hit without mana, on a list given by its head and its tail. */
  lemma AbsorbStep(s: Shield, rest: seq<Shield>, damage: nat, school: bv32)
    ensures var p := Part(s, damage, 0, school);
            var after := Absorb(rest, damage - p, 0, school);
            Absorb([s] + rest, damage, 0, school) == after.(left := Left(s, p) + after.left)
  {
    hide Part, Cost, Left;
    PartWithoutMana(s, damage, school);
    assert ([s] + rest)[1..] == rest;
  }

  lemma NothingLeft(damage: nat, school: bv32)
    ensures Absorb([], damage, 0, school).left == []
  {
  }

  /** The running account agrees with the closed form: each shield loses exactly its share. */
  lemma {:induction false} AbsorbIsGreedy(l: seq<Shield>, k: nat, damage: nat, school: bv32)
    requires k <= |l|
    ensures Absorb(l[k..], Past(l, k, damage, school), 0, school).left == Reduced(l, k, damage, school)
    decreases |l| - k
  {
    hide Part, Cost, Left, Free, Share, Past, Absorb;
    if k == |l| {
      NothingLeft(Past(l, k, damage, school), school);
    } else {
      assert l[k..] == [l[k]] + l[k + 1..];
      AbsorbStep(l[k], l[k + 1..], Past(l, k, damage, school), school);
      PastStep(l, k, damage, school);
      AbsorbIsGreedy(l, k + 1, damage, school);
    }
  }

  /** When a shield is touched, every eligible shield before it is drained: only the last one touched can keep any. */
  lemma OnlyOnePartlyDrained(l: seq<Shield>, j: nat, k: nat, damage: nat, school: bv32)
    requires j < k < |l| && Free(l[j], school) && Share(l, k, damage, school) > 0
    ensures Share(l, j, damage, school) == l[j].amount
  {
    hide Free;
    assert l[..k] == l[..j] + [l[j]] + l[j + 1..k];
    OfferOfConcat(l[..j] + [l[j]], l[j + 1..k], school);
    OfferOfConcat(l[..j], [l[j]], school);
    assert Offer([l[j]], school) == l[j].amount;
  }

  /**
   Which shields absorb for nothing: those of the schools they name, or of all, and anti-magic ones only against magic.
   */
  lemma FreeMeans(s: Shield, school: bv32)
    ensures Free(s, school) <==> (s.kind == 69 || (s.kind == 256 && !Physical(school))) && Matches(s.schools, school)
  {
    hide Physical, Matches;
  }

  lemma SchoolsMeet(schools: bv32, school: bv32)
    ensures Matches(schools, school) <==> schools == 0 || schools & school != 0
    ensures Physical(1) && !Physical(0) && !Physical(2) && !Physical(126) && Physical(127)
  {
  }

  /**
   The order in which shields are asked: a shield against every school is touched only when every eligible shield
   against particular schools and every eligible anti-magic shield is drained, and an anti-magic one only after the
   former.
   */
  lemma SpecificShieldsFirst(l: seq<Shield>, j: nat, k: nat, damage: nat, school: bv32)
    requires Sorted(l) && j < |l| && k < |l| && Free(l[j], school) && Share(l, k, damage, school) > 0
    requires l[k].kind == 69 || l[k].kind == 256
    requires var narrow := (s: Shield) => s.kind == 69 && s.schools != 0 && s.schools != 127;
             !narrow(l[k]) && (narrow(l[j]) || (l[j].kind == 256 && l[k].kind == 69))
    ensures j < k && Share(l, j, damage, school) == l[j].amount
  {
    hide Share, Free;
    assert Before(l[j], l[k]) && !Before(l[k], l[j]);
    assert j < k;
    OnlyOnePartlyDrained(l, j, k, damage, school);
  }

  /** One shield under two hits of one school: together they take what one hit of their sum takes. */
  lemma PartsAdd(s: Shield, d1: nat, d2: nat, school: bv32)
    requires s.amount > 0
    ensures var p1 := Part(s, d1, 0, school);
            var p := Part(s, d1 + d2, 0, school);
            if p1 == s.amount then p == p1
            else p == p1 + Part(s.(amount := s.amount - p1), d2, 0, school)
  {
  }

  predicate LikeOneHit(l: seq<Shield>, d1: nat, d2: nat, school: bv32)
  {
    var first := Absorb(l, d1, 0, school);
    var second := Absorb(first.left, d2, 0, school);
    var both := Absorb(l, d1 + d2, 0, school);
    second.left == both.left && first.remaining + second.remaining == both.remaining
  }

  lemma DrainedByTheFirst(s: Shield, rest: seq<Shield>, d1: nat, d2: nat, school: bv32)
    requires s.amount > 0 && Part(s, d1, 0, school) == s.amount && LikeOneHit(rest, d1 - s.amount, d2, school)
    ensures LikeOneHit([s] + rest, d1, d2, school)
  {
    hide Part, Cost, Absorb;
    PartsAdd(s, d1, d2, school);
    AbsorbStep(s, rest, d1, school);
    AbsorbStep(s, rest, d1 + d2, school);
    var first := Absorb(rest, d1 - s.amount, 0, school);
    assert [] + first.left == first.left;
  }

  lemma KeptByTheFirst(s: Shield, rest: seq<Shield>, d1: nat, d2: nat, school: bv32)
    requires Part(s, d1, 0, school) < s.amount
    requires var kept := s.(amount := s.amount - Part(s, d1, 0, school));
             LikeOneHit(rest, d1 - Part(s, d1, 0, school), d2 - Part(kept, d2, 0, school), school)
    ensures LikeOneHit([s] + rest, d1, d2, school)
  {
    hide Part, Cost, Absorb;
    var p1 := Part(s, d1, 0, school);
    var kept := s.(amount := s.amount - p1);
    PartsAdd(s, d1, d2, school);
    AbsorbStep(s, rest, d1, school);
    AbsorbStep(s, rest, d1 + d2, school);
    AbsorbStep(kept, Absorb(rest, d1 - p1, 0, school).left, d2, school);
  }

  lemma NothingToHit(d1: nat, d2: nat, school: bv32)
    ensures LikeOneHit([], d1, d2, school)
  {
  }

  /** Two hits of one school take what a single hit of their sum takes, and leave the same shields. */
  lemma {:induction false} HitsAdd(l: seq<Shield>, d1: nat, d2: nat, school: bv32)
    requires forall s :: s in l ==> s.amount > 0
    ensures LikeOneHit(l, d1, d2, school)
  {
    hide Part, Cost, LikeOneHit, Absorb;
    if l == [] {
      NothingToHit(d1, d2, school);
    } else {
      var s, rest := l[0], l[1..];
      assert l == [s] + rest;
      assert s in l;
      var p1 := Part(s, d1, 0, school);
      if p1 == s.amount {
        HitsAdd(rest, d1 - p1, d2, school);
        DrainedByTheFirst(s, rest, d1, d2, school);
      } else {
        var kept := s.(amount := s.amount - p1);
        HitsAdd(rest, d1 - p1, d2 - Part(kept, d2, 0, school), school);
        KeptByTheFirst(s, rest, d1, d2, school);
      }
    }
  }

  // ---------- Free shields before mana shields ----------

  function ManaShields(l: seq<Shield>): seq<Shield>
  {
    Filter(l, (s: Shield) => s.kind == MANA_SHIELD)
  }

  /** The damage that the free shields leave over. */
  function Excess(l: seq<Shield>, damage: nat, school: bv32): nat
  {
    damage - Min(damage, Offer(l, school))
  }

  /** After a mana shield no free one follows. */
  lemma {:induction false} NoOfferAfterMana(l: seq<Shield>, school: bv32)
    requires forall s :: s in l ==> Priority(s) >= 4
    ensures Offer(l, school) == 0
  {
    hide Priority, Free;
    if l != [] {
      assert l[0] in l;
      LateIsNotFree(l[0], school);
      NoOfferAfterMana(l[1..], school);
    }
  }

  lemma LateIsNotFree(s: Shield, school: bv32)
    requires Priority(s) >= 4
    ensures !Free(s, school)
  {
  }

  /** What a shield that costs no mana takes, whatever the mana. */
  lemma PartWithoutPrice(s: Shield, damage: nat, mana: nat, school: bv32)
    requires s.kind != MANA_SHIELD
    ensures Part(s, damage, mana, school) == if Free(s, school) then Min(s.amount, damage) else 0
    ensures Cost(s, damage, mana, school) == 0
  {
  }

  /** The mana shields alone would take from the excess what they take here. */
  predicate OnlyTheExcess(l: seq<Shield>, damage: nat, mana: nat, school: bv32)
  {
    var r, paid := Absorb(l, damage, mana, school), Absorb(ManaShields(l), Excess(l, damage, school), mana, school);
    r.mana == paid.mana && r.remaining == paid.remaining
  }

  lemma SortedTail(l: seq<Shield>)
    requires Sorted(l) && l != []
    ensures Sorted(l[1..]) && (l[0].kind == MANA_SHIELD ==> forall s :: s in l ==> Priority(s) >= 4)
  {
  }

  lemma UnpaidFirst(s: Shield, rest: seq<Shield>, damage: nat, mana: nat, school: bv32)
    requires s.kind != MANA_SHIELD && OnlyTheExcess(rest, damage - Part(s, damage, mana, school), mana, school)
    ensures OnlyTheExcess([s] + rest, damage, mana, school)
  {
    hide Part, Cost, Free;
    PartWithoutPrice(s, damage, mana, school);
    assert ([s] + rest)[1..] == rest;
    assert [] + ManaShields(rest) == ManaShields(rest);
  }

  lemma PaidFirst(s: Shield, rest: seq<Shield>, damage: nat, mana: nat, school: bv32)
    requires s.kind == MANA_SHIELD && Offer([s] + rest, school) == Offer(rest, school) == 0
    requires Cost(s, damage, mana, school) <= mana &&
             OnlyTheExcess(rest, damage - Part(s, damage, mana, school), mana - Cost(s, damage, mana, school), school)
    ensures OnlyTheExcess([s] + rest, damage, mana, school)
  {
    hide Part, Cost, Free;
    assert ([s] + rest)[1..] == rest;
    assert ([s] + ManaShields(rest))[1..] == ManaShields(rest);
  }

  /** In the sorted list mana is asked only for the damage that the free shields leave over. */
  lemma {:induction false} ManaPaysTheExcess(l: seq<Shield>, damage: nat, mana: nat, school: bv32)
    requires Sorted(l)
    ensures OnlyTheExcess(l, damage, mana, school)
  {
    hide Part, Cost, Free, Priority, Sorted, OnlyTheExcess, Offer;
    if l == [] {
      NothingIsExcess(damage, mana, school);
    } else {
      var s, rest := l[0], l[1..];
      assert l == [s] + rest;
      SortedTail(l);
      CostIsCovered(s, damage, mana, school);
      ManaPaysTheExcess(rest, damage - Part(s, damage, mana, school), mana - Cost(s, damage, mana, school), school);
      if s.kind == MANA_SHIELD {
        NoOfferAfterMana(l, school);
        NoOfferAfterMana(rest, school);
        PaidFirst(s, rest, damage, mana, school);
      } else {
        PartWithoutPrice(s, damage, mana, school);
        UnpaidFirst(s, rest, damage, mana, school);
      }
    }
  }

  lemma NothingIsExcess(damage: nat, mana: nat, school: bv32)
    ensures OnlyTheExcess([], damage, mana, school)
  {
  }

  lemma {:induction false} NothingToAbsorb(l: seq<Shield>, mana: nat, school: bv32)
    ensures Absorb(l, 0, mana, school).mana == mana
  {
    if l != [] {
      NothingToAbsorb(l[1..], mana, school);
    }
  }

  /** Damage that the free shields can take costs no mana at all. */
  lemma ManaIsSpared(l: seq<Shield>, damage: nat, mana: nat, school: bv32)
    requires Sorted(l) && damage <= Offer(l, school)
    ensures Absorb(l, damage, mana, school).mana == mana && Absorb(l, damage, mana, school).remaining == 0
  {
    ManaPaysTheExcess(l, damage, mana, school);
    NothingToAbsorb(ManaShields(l), mana, school);
  }

  // ---------- The list of shields ----------

  predicate Active(s: Shield)
  {
    !s.stopped && s.amount > 0
  }

  /** Auras are keyed by their spell. */
  ghost predicate Keyed(auras: map<nat, Shield>)
  {
    forall id :: id in auras ==> auras[id].spell == id
  }

  predicate Sorted(l: seq<Shield>)
  {
    forall i, j :: 0 <= i < j < |l| ==> Before(l[i], l[j])
  }

  /** `l` holds the active auras, in the order in which they are asked. */
  ghost predicate Lists(l: seq<Shield>, auras: map<nat, Shield>)
  {
    Sorted(l) &&
    (forall s :: s in l ==> s.spell in auras && auras[s.spell] == s && Active(s)) &&
    (forall id :: id in auras && Active(auras[id]) ==> auras[id] in l)
  }

  /** There is one such list: whatever order the map was walked in, the hit comes out the same. */
  lemma {:induction false} ListingIsUnique(a: seq<Shield>, b: seq<Shield>)
    requires Sorted(a) && Sorted(b) && (forall s :: s in a <==> s in b)
    ensures a == b
  {
    if a != [] {
      assert a[0] in b;
    }
    if b != [] {
      assert b[0] in a;
      assert a[0] in b;
      forall s ensures s in a[1..] <==> s in b[1..] {
        if s in a[1..] {
          assert s in b && Before(a[0], s);
        }
        if s in b[1..] {
          assert s in a && Before(b[0], s);
        }
      }
      ListingIsUnique(a[1..], b[1..]);
    }
  }

  lemma ListsAgree(a: seq<Shield>, b: seq<Shield>, auras: map<nat, Shield>)
    requires Keyed(auras) && Lists(a, auras) && Lists(b, auras)
    ensures a == b
  {
    ListingIsUnique(a, b);
  }

  /** The sort is by priority and then by spell; no two shields of one map tie. */
  method Insert(l: seq<Shield>, s: Shield) returns (r: seq<Shield>)
    requires Sorted(l) && forall t :: t in l ==> t.spell != s.spell
    ensures Sorted(r) && forall t :: t in r <==> t in l || t == s
  {
    var i := 0;
    while i < |l| && Before(l[i], s)
      invariant i <= |l| && forall j :: 0 <= j < i ==> Before(l[j], s)
    {
      i := i + 1;
    }
    assert l == l[..i] + l[i..];
    if i < |l| {
      assert l[i] in l;
    }
    InsertKeepsPairs(l[..i], s, l[i..], Before);
    r := l[..i] + [s] + l[i..];
  }

  /** Collects the active shields, walking the map in any order, and sorts them. */
  method SortedShields(auras: map<nat, Shield>) returns (l: seq<Shield>)
    requires Keyed(auras)
    ensures Lists(l, auras)
    // shields of one kind and the same schools are asked in the order of their spells
    ensures forall i, j :: 0 <= i < j < |l| && l[i].kind == l[j].kind && l[i].schools == l[j].schools ==>
              l[i].spell < l[j].spell
  {
    l := [];
    var todo := auras.Keys;
    while todo != {}
      invariant todo <= auras.Keys && Sorted(l)
      invariant forall s :: s in l ==> s.spell in auras && s.spell !in todo && auras[s.spell] == s && Active(s)
      invariant forall id :: id in auras && id !in todo && Active(auras[id]) ==> auras[id] in l
      decreases todo
    {
      var id :| id in todo;
      todo := todo - {id};
      if Active(auras[id]) {
        l := Insert(l, auras[id]);
      }
    }
  }

  // ---------- One hit, step by step ----------

  /** The state between two shields: `kept` before, `rest` still to be asked, `drained` to be removed at the end. */
  ghost predicate Midway(kept: seq<Shield>, rest: seq<Shield>, drained: seq<nat>, auras: map<nat, Shield>,
                         before: map<nat, Shield>)
  {
    Keyed(auras) && Lists(kept + rest, auras) && auras.Keys == before.Keys &&
    (forall id :: id in before && !Active(before[id]) ==> auras[id] == before[id]) &&
    (forall id :: id in drained ==> id in before && !Active(auras[id]) && Active(before[id])) &&
    (forall id :: id in before && Active(before[id]) && !Active(auras[id]) ==> id in drained)
  }

  lemma NotBeforeItself(s: Shield)
    ensures !Before(s, s)
  {
  }

  lemma ListedStep(kept: seq<Shield>, s: Shield, rest: seq<Shield>, p: nat, auras: map<nat, Shield>)
    requires p <= s.amount && Keyed(auras) && Lists(kept + ([s] + rest), auras)
    ensures Lists(kept + Left(s, p) + rest, auras[s.spell := s.(amount := s.amount - p)])
  {
    hide Before;
    var l := kept + ([s] + rest);
    var t := s.(amount := s.amount - p);
    var m := kept + Left(s, p) + rest;
    assert l[|kept|] == s;
    NotBeforeItself(s);
    assert forall i :: 0 <= i < |l| && i != |kept| ==> l[i].spell != s.spell by {
      forall i | 0 <= i < |l| && i != |kept| ensures l[i].spell != s.spell {
        assert l[i] in l;
        assert Before(l[i], s) || Before(s, l[i]);
      }
    }
    assert forall u :: u in m ==> u == t || (u in l && u.spell != s.spell) by {
      forall u | u in m ensures u == t || (u in l && u.spell != s.spell) {
        if u in kept {
          var i :| 0 <= i < |kept| && kept[i] == u;
          assert l[i] == u;
        } else if u in rest {
          var i :| 0 <= i < |rest| && rest[i] == u;
          assert l[|kept| + 1 + i] == u;
        }
      }
    }
    assert forall u :: u in l && u != s ==> u in m;
    assert t.amount > 0 ==> t in m;
    SortedStep(kept, s, rest, p);
  }

  lemma SortedStep(kept: seq<Shield>, s: Shield, rest: seq<Shield>, p: nat)
    requires p <= s.amount && Sorted(kept + ([s] + rest))
    ensures Sorted(kept + Left(s, p) + rest)
  {
    var l := kept + ([s] + rest);
    var m := kept + Left(s, p) + rest;
    var gone := if s.amount > p then 0 else 1;
    forall i, j | 0 <= i < j < |m| ensures Before(m[i], m[j]) {
      assert m[i] == if i < |kept| then l[i] else if i + gone == |kept| then s.(amount := s.amount - p)
                                                  else l[i + gone];
      assert m[j] == if j < |kept| then l[j] else if j + gone == |kept| then s.(amount := s.amount - p)
                                                  else l[j + gone];
      assert Before(l[if i < |kept| then i else i + gone], l[if j < |kept| then j else j + gone]);
    }
  }

  /** The hit so far: what the rest of the list will do to the rest of the damage completes the whole. */
  ghost predicate OnTrack(whole: Result, kept: seq<Shield>, rest: seq<Shield>, damage: nat, mana: nat, school: bv32)
  {
    var r := Absorb(rest, damage, mana, school);
    whole == r.(left := kept + r.left)
  }

  lemma OnTrackStep(whole: Result, kept: seq<Shield>, s: Shield, rest: seq<Shield>, damage: nat, mana: nat,
                    school: bv32)
    requires OnTrack(whole, kept, [s] + rest, damage, mana, school)
    ensures Cost(s, damage, mana, school) <= mana
    ensures var p := Part(s, damage, mana, school);
            OnTrack(whole, kept + Left(s, p), rest, damage - p, mana - Cost(s, damage, mana, school), school)
  {
    hide Part, Cost, Left;
    CostIsCovered(s, damage, mana, school);
    assert ([s] + rest)[1..] == rest;
    var p := Part(s, damage, mana, school);
    var r := Absorb(rest, damage - p, mana - Cost(s, damage, mana, school), school);
    assert kept + (Left(s, p) + r.left) == kept + Left(s, p) + r.left;
  }

  lemma NoPart(s: Shield, mana: nat, school: bv32)
    ensures Part(s, 0, mana, school) == 0 && Cost(s, 0, mana, school) == 0
  {
  }

  lemma {:induction false} NoDamageLeft(l: seq<Shield>, mana: nat, school: bv32)
    requires forall s :: s in l ==> s.amount > 0
    ensures Absorb(l, 0, mana, school) == Result(l, 0, mana)
  {
    hide Absorb;
    if l == [] {
      NobodyAsked(mana, school);
    } else {
      assert l[0] in l;
      NoDamageLeft(l[1..], mana, school);
      NotDrained(l[0], l[1..], mana, school);
      assert l == [l[0]] + l[1..];
    }
  }

  lemma NobodyAsked(mana: nat, school: bv32)
    ensures Absorb([], 0, mana, school) == Result([], 0, mana)
  {
  }

  lemma NotDrained(s: Shield, rest: seq<Shield>, mana: nat, school: bv32)
    requires s.amount > 0 && Absorb(rest, 0, mana, school) == Result(rest, 0, mana)
    ensures Absorb([s] + rest, 0, mana, school) == Result([s] + rest, 0, mana)
  {
    hide Part, Cost;
    NoPart(s, mana, school);
    assert ([s] + rest)[1..] == rest;
  }

  /**
   * The whole effect of a hit on the auras that `l` lists: the list comes out as `Absorb` says, the inactive auras are
   * untouched, and a drained shield is gone unless its spell is in `lingering`.
   */
  ghost predicate HitBy(l: seq<Shield>, before: map<nat, Shield>, manaBefore: nat, damage: nat, school: bv32,
                        auras: map<nat, Shield>, mana: nat, absorbed: nat, remaining: nat, lingering: set<nat>)
  {
    var whole := Absorb(l, damage, manaBefore, school);
    absorbed + remaining == damage && remaining == whole.remaining && mana == whole.mana &&
    Lists(whole.left, auras) && Settled(auras, before, lingering)
  }

  ghost predicate Settled(auras: map<nat, Shield>, before: map<nat, Shield>, lingering: set<nat>)
  {
    Keyed(auras) &&
    (forall id :: id in before && !Active(before[id]) ==> id in auras && auras[id] == before[id]) &&
    (forall id :: id in auras ==> id in before && (Active(before[id]) && id !in lingering ==> Active(auras[id])))
  }

  lemma NoHit(auras: map<nat, Shield>, mana: nat, school: bv32)
    requires Keyed(auras)
    ensures forall l, lingering :: Lists(l, auras) ==> HitBy(l, auras, mana, 0, school, auras, mana, 0, 0, lingering)
  {
    forall l, lingering | Lists(l, auras) ensures HitBy(l, auras, mana, 0, school, auras, mana, 0, 0, lingering) {
      NoDamageLeft(l, mana, school);
    }
  }

  lemma HitComplete(order: seq<Shield>, before: map<nat, Shield>, manaBefore: nat, damage: nat, school: bv32,
                    auras: map<nat, Shield>, mana: nat, absorbed: nat, remaining: nat, lingering: set<nat>)
    requires Keyed(before) && Lists(order, before)
    requires HitBy(order, before, manaBefore, damage, school, auras, mana, absorbed, remaining, lingering)
    ensures forall l :: Lists(l, before) ==>
              HitBy(l, before, manaBefore, damage, school, auras, mana, absorbed, remaining, lingering)
  {
    forall l | Lists(l, before)
      ensures HitBy(l, before, manaBefore, damage, school, auras, mana, absorbed, remaining, lingering) {
      ListsAgree(l, order, before);
    }
  }

  lemma FreeIsAsked(s: Shield, school: bv32)
    ensures Free(s, school) == ((s.kind == SCHOOL_ABSORB || (s.kind == MAGIC_ABSORB && !Physical(school))) &&
                                Matches(s.schools, school))
  {
  }

  /** What a player's shield takes of the damage, and the mana it draws, as the hit computes them. */
  method Ask(aura: Shield, remaining: nat, mana: nat, school: bv32) returns (part: nat, drain: nat)
    ensures part == Part(aura, remaining, mana, school) && (part > 0 ==> drain == Cost(aura, remaining, mana, school))
    ensures part == 0 ==> Cost(aura, remaining, mana, school) == 0
  {
    hide Matches, Physical;
    part, drain := 0, 0;
    if aura.kind == SCHOOL_ABSORB {
      if Matches(aura.schools, school) {
        part := Min(aura.amount, remaining);
      }
    } else if aura.kind == MAGIC_ABSORB && !Physical(school) {
      if Matches(aura.schools, school) {
        part := Min(aura.amount, remaining);
      }
    } else if aura.kind == MANA_SHIELD && mana > 0 {
      part := remaining;
      if mana < ManaFor(remaining) {
        part := 2 * mana / 3;
      }
      if part > aura.amount {
        part := aura.amount;
      }
      drain := ManaFor(part);
    }
  }

  /** Removes the drained shields; the removal passes over the spells in `lingering`. */
  method RemoveDrained(from: map<nat, Shield>, drained: seq<nat>, lingering: set<nat>, ghost l: seq<Shield>,
                       ghost before: map<nat, Shield>)
    returns (auras: map<nat, Shield>)
    requires Midway(l, [], drained, from, before)
    ensures Lists(l, auras) && Settled(auras, before, lingering)
  {
    assert l + [] == l;
    auras := from;
    var k := 0;
    while k < |drained|
      invariant k <= |drained|
      invariant auras.Keys <= from.Keys && forall id :: id in auras ==> auras[id] == from[id]
      invariant forall id :: id in from && id !in auras ==> id in drained
      invariant forall id :: id in drained[..k] && id !in lingering ==> id !in auras
    {
      if drained[k] !in lingering {
        auras := auras - {drained[k]};
      }
      k := k + 1;
    }
  }

  lemma MidwayStep(kept: seq<Shield>, s: Shield, rest: seq<Shield>, drained: seq<nat>, p: nat,
                   auras: map<nat, Shield>, before: map<nat, Shield>)
    requires p <= s.amount && Midway(kept, [s] + rest, drained, auras, before)
    ensures s.spell in auras && auras[s.spell] == s && s.amount > 0
    ensures Midway(kept + Left(s, p), rest, if p == s.amount then drained + [s.spell] else drained,
                   auras[s.spell := s.(amount := s.amount - p)], before)
  {
    hide Lists, Left, Sorted;
    ListedStep(kept, s, rest, p, auras);
    ListedIsActive(kept, s, rest, auras);
  }

  lemma ListedIsActive(kept: seq<Shield>, s: Shield, rest: seq<Shield>, auras: map<nat, Shield>)
    requires Lists(kept + ([s] + rest), auras)
    ensures s.spell in auras && auras[s.spell] == s && Active(s)
  {
  }

  lemma MidwayStart(l: seq<Shield>, auras: map<nat, Shield>, damage: nat, mana: nat, school: bv32)
    requires Keyed(auras) && Lists(l, auras)
    ensures Midway([], l, [], auras, auras) && OnTrack(Absorb(l, damage, mana, school), [], l, damage, mana, school)
  {
  }

  lemma MidwayEnd(whole: Result, kept: seq<Shield>, rest: seq<Shield>, drained: seq<nat>, damage: nat, mana: nat,
                  school: bv32,
                  auras: map<nat, Shield>, before: map<nat, Shield>)
    requires Midway(kept, rest, drained, auras, before) && OnTrack(whole, kept, rest, damage, mana, school)
    requires damage == 0 || rest == []
    ensures whole == Result(kept + rest, damage, mana) && Midway(kept + rest, [], drained, auras, before)
  {
    assert kept + rest + [] == kept + rest;
    forall s | s in rest ensures s.amount > 0 {
      assert s in kept + rest;
    }
    if damage == 0 {
      NoDamageLeft(rest, mana, school);
    }
  }

  class Player {
    var auras: map<nat, Shield>
    var mana: nat

    /** A hit on a player. A mana shield also draws on the player's mana. */
    method ApplyAbsorptionShields(damage: nat, school: bv32) returns (absorbed: nat, remaining: nat)
      requires Keyed(auras) && damage <= MAX_DAMAGE
      modifies this
      ensures forall l :: Lists(l, old(auras)) ==>
                HitBy(l, old(auras), old(mana), damage, school, auras, mana, absorbed, remaining, {})
    {
      hide *;
      absorbed, remaining := 0, damage;
      if damage == 0 {
        NoHit(auras, mana, school);
        return;
      }
      var order := SortedShields(auras);
      ghost var whole := Absorb(order, damage, mana, school);
      ghost var kept := [];
      var drained: seq<nat> := [];
      var i := 0;
      MidwayStart(order, auras, damage, mana, school);
      assert order[0..] == order;
      while i < |order| && remaining > 0
        invariant i <= |order| && absorbed + remaining == damage
        invariant Midway(kept, order[i..], drained, auras, old(auras))
        invariant OnTrack(whole, kept, order[i..], remaining, mana, school)
      {
        ghost var s, rest := order[i], order[i + 1..];
        assert order[i..] == [s] + rest;
        MidwayStep(kept, s, rest, drained, Part(s, remaining, mana, school), auras, old(auras));
        OnTrackStep(whole, kept, s, rest, remaining, mana, school);
        kept := kept + Left(s, Part(s, remaining, mana, school));
        var aura := auras[order[i].spell];
        var part, drain := Ask(aura, remaining, mana, school);
        if part > 0 {
          // The clamp to zero is never needed: the drain is covered.
          mana := mana - drain;
          remaining := remaining - part;
          absorbed := absorbed + part;
          auras := auras[aura.spell := aura.(amount := aura.amount - part)];
          if part == aura.amount {
            drained := drained + [aura.spell];
          }
        } else {
          assert auras == auras[aura.spell := aura.(amount := aura.amount - part)];
        }
        i := i + 1;
      }
      MidwayEnd(whole, kept, order[i..], drained, remaining, mana, school, auras, old(auras));
      auras := RemoveDrained(auras, drained, {}, kept + order[i..], old(auras));
      HitComplete(order, old(auras), old(mana), damage, school, auras, mana, absorbed, remaining, {});
    }
  }

  class Creature {
    var auras: map<nat, Shield>

    /** A hit on a creature: mana shields count for nothing, and a drained shield of spell 0 is never removed. */
    method ApplyAbsorptionShields(damage: nat, school: bv32) returns (absorbed: nat, remaining: nat)
      requires Keyed(auras)
      modifies this
      ensures forall l :: Lists(l, old(auras)) ==>
                HitBy(l, old(auras), 0, damage, school, auras, 0, absorbed, remaining, {0})
    {
      hide *;
      absorbed, remaining := 0, damage;
      if damage == 0 {
        NoHit(auras, 0, school);
        return;
      }
      var order := SortedShields(auras);
      ghost var whole := Absorb(order, damage, 0, school);
      ghost var kept := [];
      var drained: seq<nat> := [];
      var i := 0;
      MidwayStart(order, auras, damage, 0, school);
      assert order[0..] == order;
      while i < |order| && remaining > 0
        invariant i <= |order| && absorbed + remaining == damage
        invariant Midway(kept, order[i..], drained, auras, old(auras))
        invariant OnTrack(whole, kept, order[i..], remaining, 0, school)
      {
        ghost var s, rest := order[i], order[i + 1..];
        assert order[i..] == [s] + rest;
        PartWithoutMana(s, remaining, school);
        FreeIsAsked(s, school);
        MidwayStep(kept, s, rest, drained, Part(s, remaining, 0, school), auras, old(auras));
        OnTrackStep(whole, kept, s, rest, remaining, 0, school);
        kept := kept + Left(s, Part(s, remaining, 0, school));
        var aura := auras[order[i].spell];
        if (aura.kind == SCHOOL_ABSORB || (aura.kind == MAGIC_ABSORB && !Physical(school))) &&
           Matches(aura.schools, school) {
          var part := Min(aura.amount, remaining);
          remaining := remaining - part;
          absorbed := absorbed + part;
          auras := auras[aura.spell := aura.(amount := aura.amount - part)];
          if part == aura.amount {
            drained := drained + [aura.spell];
          }
        } else {
          assert auras == auras[aura.spell := aura.(amount := aura.amount - 0)];
        }
        i := i + 1;
      }
      MidwayEnd(whole, kept, order[i..], drained, remaining, 0, school, auras, old(auras));
      auras := RemoveDrained(auras, drained, {0}, kept + order[i..], old(auras));
      HitComplete(order, old(auras), 0, damage, school, auras, 0, absorbed, remaining, {0});
    }
  }
}
