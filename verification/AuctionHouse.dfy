/**
 The auction house: listing, bidding, buying out, cancelling and expiry, with the money they move between purses,
 mail and the auction table. Amounts are 32-bit and wrap as the code's do.
 */
module AuctionHouse {

  const WRAP: nat := 0x1_0000_0000
  const BASE_DEPOSIT: nat := 100

  datatype Auction = Auction(id: nat, owner: nat, buyout: nat, expires: int, bidder: nat, bid: nat, startBid: nat,
                             deposit: nat)

  datatype Letter = Letter(receiver: nat, money: nat)

  datatype Outcome = Done | ItemNotFound | NotEnoughMoney | CannotBidOwn | BidTooLow | NoSuchAuction

  /** Purses by player, the auction table, and every letter ever sent (a letter's id is its position). */
  datatype Ledger = Ledger(purses: map<nat, nat>, auctions: seq<Auction>, mail: seq<Letter>)
  {
    function Purse(player: nat): nat
    {
      if player in purses then purses[player] else 0
    }

    function WithPurse(player: nat, money: nat): Ledger
    {
      this.(purses := purses[player := money])
    }

    function Send(receiver: nat, money: nat): Ledger
    {
      this.(mail := mail + [Letter(receiver, money)])
    }

    function Without(id: nat): Ledger
    {
      this.(auctions := Delete(auctions, id))
    }
  }

  // ---------- The auction table ----------

  /** DELETE ... WHERE id = ? */
  function Delete(s: seq<Auction>, id: nat): seq<Auction>
  {
    if s == [] then [] else (if s[0].id == id then [] else [s[0]]) + Delete(s[1..], id)
  }

  /** UPDATE ... SET buyguid = ?, lastbid = ? WHERE id = ? */
  function Rebid(s: seq<Auction>, id: nat, bidder: nat, bid: nat): seq<Auction>
  {
    if s == [] then [] else
      [if s[0].id == id then s[0].(bidder := bidder, bid := bid) else s[0]] + Rebid(s[1..], id, bidder, bid)
  }

  /** SELECT ... WHERE id = ? LIMIT 1, as a list of at most one row. */
  function Find(s: seq<Auction>, id: nat): (r: seq<Auction>)
    ensures |r| <= 1
    ensures forall a :: a in r ==> a in s && a.id == id
    ensures r == [] ==> forall a :: a in s ==> a.id != id
  {
    if s == [] then [] else if s[0].id == id then [s[0]] else Find(s[1..], id)
  }

  /** SELECT ... WHERE time <= ? */
  function Due(s: seq<Auction>, now: int): (r: seq<Auction>)
    ensures forall a :: a in r <==> a in s && a.expires <= now
  {
    if s == [] then [] else (if s[0].expires <= now then [s[0]] else []) + Due(s[1..], now)
  }

  /** SELECT COALESCE(MAX(id), 0) */
  function MaxId(s: seq<Auction>): (m: nat)
    ensures forall a :: a in s ==> a.id <= m
  {
    if s == [] then 0 else
      var m := MaxId(s[1..]);
      if s[0].id > m then s[0].id else m
  }

  ghost predicate UniqueIds(s: seq<Auction>)
  {
    forall i, j :: 0 <= i < j < |s| ==> s[i].id != s[j].id
  }

  // ---------- Operations ----------

  /** Five percent, in 32-bit arithmetic. */
  function Cut(amount: nat): nat
  {
    amount * 5 % WRAP / 100
  }

  function Deposit(vendorShare: nat): nat
  {
    if vendorShare > BASE_DEPOSIT then vendorShare else BASE_DEPOSIT
  }

  /** What the seller receives: price plus deposit minus the cut. */
  function Profit(price: nat, deposit: nat): nat
  {
    (price + deposit - Cut(price)) % WRAP
  }

  function Sell(l: Ledger, player: nat, ownsItem: bool, startBid: nat, buyout: nat, vendorShare: nat,
                expires: int): (Outcome, Ledger)
  {
    var deposit := Deposit(vendorShare);
    if !ownsItem then (ItemNotFound, l)
    else if l.Purse(player) < deposit then (NotEnoughMoney, l)
    else
      var row := Auction(MaxId(l.auctions) + 1, player, buyout, expires, 0, 0, startBid, deposit);
      (Done, l.WithPurse(player, l.Purse(player) - deposit).(auctions := l.auctions + [row]))
  }

  predicate IsBuyout(a: Auction, price: nat)
  {
    a.buyout > 0 && price >= a.buyout
  }

  function Increment(bid: nat): nat
  {
    if Cut(bid) == 0 then 1 else Cut(bid)
  }

  /** The least acceptable bid over a standing one. */
  function NextBid(bid: nat): nat
  {
    (bid + Increment(bid)) % WRAP
  }

  predicate Acceptable(a: Auction, price: nat)
  {
    price >= a.startBid && (IsBuyout(a, price) || a.bid == 0 || price >= NextBid(a.bid))
  }

  /** A standing bidder who bids again pays the difference. */
  function Charge(a: Auction, player: nat, price: nat): nat
  {
    if a.bidder == player && a.bid < price then price - a.bid else price
  }

  function Refund(l: Ledger, a: Auction, player: nat): Ledger
  {
    if a.bidder > 0 && a.bidder != player && a.bid > 0 then l.Send(a.bidder, a.bid) else l
  }

  function BuyOut(l: Ledger, a: Auction, player: nat): Ledger
  {
    Refund(l.Without(a.id), a, player).Send(player, 0).Send(a.owner, Profit(a.buyout, a.deposit)).Send(a.owner, 0)
  }

  function Outbid(l: Ledger, a: Auction, player: nat, price: nat): Ledger
  {
    Refund(l, a, player).(auctions := Rebid(l.auctions, a.id, player, price))
  }

  function PlaceBid(l: Ledger, player: nat, id: nat, price: nat): (Outcome, Ledger)
  {
    var found := Find(l.auctions, id);
    if found == [] then (NoSuchAuction, l)
    else
      var a := found[0];
      if a.owner == player then (CannotBidOwn, l)
      else if !Acceptable(a, price) then (BidTooLow, l)
      else if l.Purse(player) < Charge(a, player, price) then (NotEnoughMoney, l)
      else
        var paid := l.WithPurse(player, l.Purse(player) - Charge(a, player, price));
        (Done, if IsBuyout(a, price) then BuyOut(paid, a, player) else Outbid(paid, a, player, price))
  }

  predicate HasBid(a: Auction)
  {
    a.bidder > 0 && a.bid > 0
  }

  function Cancel(l: Ledger, player: nat, id: nat): (Outcome, Ledger)
  {
    var found := Find(l.auctions, id);
    if found == [] || found[0].owner != player then (NoSuchAuction, l)
    else
      var a := found[0];
      var cut := if HasBid(a) then Cut(a.bid) else 0;
      if l.Purse(player) < cut then (NotEnoughMoney, l)
      else
        var returned := (if HasBid(a) then l.WithPurse(player, l.Purse(player) - cut)
                         else l).Without(id).Send(player, 0);
        (Done, if HasBid(a) then returned.Send(a.bidder, a.bid) else returned)
  }

  /** Closes one expired auction: sold to the standing bidder, or returned to its owner. */
  function Settle(l: Ledger, a: Auction): Ledger
  {
    var closed := l.Without(a.id);
    if HasBid(a) then closed.Send(a.bidder, 0).Send(a.owner, Profit(a.bid, a.deposit)).Send(a.owner, 0)
    else closed.Send(a.owner, 0)
  }

  function SettleAll(l: Ledger, due: seq<Auction>): Ledger
    decreases |due|
  {
    if due == [] then l else SettleAll(Settle(l, due[0]), due[1..])
  }

  function Expire(l: Ledger, now: int): Ledger
  {
    SettleAll(l, Due(l.auctions, now))
  }

  /** Takes the money out of a letter. */
  function Collect(l: Ledger, player: nat, letter: nat): Ledger
  {
    if letter < |l.mail| && l.mail[letter].receiver == player && l.mail[letter].money > 0 then
      l.WithPurse(player, (l.Purse(player) + l.mail[letter].money) % WRAP).(mail := l.mail[letter := Letter(player, 0)])
    else l
  }

  // ---------- Wealth ----------

  /** What an open auction holds for a player: a standing bid, and a deposit. */
  function Held(a: Auction, player: nat): nat
  {
    (if a.bidder == player then a.bid else 0) + (if a.owner == player then a.deposit else 0)
  }

  function HeldFor(s: seq<Auction>, player: nat): nat
  {
    if s == [] then 0 else Held(s[0], player) + HeldFor(s[1..], player)
  }

  function MailedTo(s: seq<Letter>, player: nat): nat
  {
    if s == [] then 0 else (if s[0].receiver == player then s[0].money else 0) + MailedTo(s[1..], player)
  }

  /** Everything that is a player's: purse, money in the mail, own standing bids and own deposits. */
  function Wealth(l: Ledger, player: nat): nat
  {
    l.Purse(player) + MailedTo(l.mail, player) + HeldFor(l.auctions, player)
  }

  lemma {:induction false} HeldByAppended(s: seq<Auction>, a: Auction, player: nat)
    ensures HeldFor(s + [a], player) == HeldFor(s, player) + Held(a, player)
  {
    if s == [] {
      assert s + [a] == [a];
    } else {
      assert (s + [a])[1..] == s[1..] + [a];
      HeldByAppended(s[1..], a, player);
    }
  }

  lemma {:induction false} MailedByAppended(s: seq<Letter>, m: Letter, player: nat)
    ensures MailedTo(s + [m], player) == MailedTo(s, player) + if m.receiver == player then m.money else 0
  {
    if s == [] {
      assert s + [m] == [m];
    } else {
      assert (s + [m])[1..] == s[1..] + [m];
      MailedByAppended(s[1..], m, player);
    }
  }

  lemma {:induction false} MailedAfterUpdate(s: seq<Letter>, i: nat, m: Letter, player: nat)
    requires i < |s| && m.receiver == s[i].receiver
    ensures MailedTo(s[i := m], player) ==
            MailedTo(s, player) + if m.receiver == player then m.money - s[i].money else 0
  {
    if i == 0 {
      assert s[0 := m][1..] == s[1..];
    } else {
      assert s[i := m][1..] == s[1..][i - 1 := m];
      MailedAfterUpdate(s[1..], i - 1, m, player);
    }
  }

  lemma {:induction false} DeleteAbsent(s: seq<Auction>, id: nat)
    requires forall a :: a in s ==> a.id != id
    ensures Delete(s, id) == s
  {
    if s != [] {
      DeleteAbsent(s[1..], id);
    }
  }

  lemma {:induction false} DeletedRows(s: seq<Auction>, id: nat)
    ensures forall b :: b in Delete(s, id) <==> b in s && b.id != id
    ensures UniqueIds(s) ==> UniqueIds(Delete(s, id))
  {
    if s != [] {
      DeletedRows(s[1..], id);
    }
  }

  lemma {:induction false} DeletedRow(s: seq<Auction>, a: Auction, player: nat)
    requires UniqueIds(s) && a in s
    ensures HeldFor(Delete(s, a.id), player) == HeldFor(s, player) - Held(a, player)
  {
    if s[0].id == a.id {
      assert s[0] == a;
      DeleteAbsent(s[1..], a.id);
      assert Delete(s, a.id) == s[1..];
    } else {
      DeletedRow(s[1..], a, player);
    }
  }

  lemma {:induction false} RebidRows(s: seq<Auction>, a: Auction, bidder: nat, bid: nat)
    requires UniqueIds(s) && a in s
    ensures var t, b := Rebid(s, a.id, bidder, bid), a.(bidder := bidder, bid := bid);
            && UniqueIds(t) && |t| == |s| && (forall i :: 0 <= i < |s| ==> t[i].id == s[i].id)
            && (forall c :: c in t <==> c == b || (c in s && c.id != a.id))
  {
    if s[0].id == a.id {
      assert s[0] == a;
      RebidAbsent(s[1..], a.id, bidder, bid);
    } else {
      RebidRows(s[1..], a, bidder, bid);
    }
  }

  lemma {:induction false} RebidRow(s: seq<Auction>, a: Auction, bidder: nat, bid: nat, player: nat)
    requires UniqueIds(s) && a in s
    ensures HeldFor(Rebid(s, a.id, bidder, bid), player) ==
            HeldFor(s, player) - Held(a, player) + Held(a.(bidder := bidder, bid := bid), player)
  {
    if s[0].id == a.id {
      assert s[0] == a;
      RebidAbsent(s[1..], a.id, bidder, bid);
    } else {
      RebidRow(s[1..], a, bidder, bid, player);
    }
  }

  lemma {:induction false} RebidAbsent(s: seq<Auction>, id: nat, bidder: nat, bid: nat)
    requires forall a :: a in s ==> a.id != id
    ensures Rebid(s, id, bidder, bid) == s
  {
    if s != [] {
      RebidAbsent(s[1..], id, bidder, bid);
    }
  }

  // ---------- What every reachable ledger satisfies ----------

  predicate RowOk(a: Auction)
  {
    && a.owner > 0
    && (a.buyout > 0 ==> a.bid < a.buyout)
    && (a.bid > 0 ==> a.bidder > 0 && a.bidder != a.owner && a.bid >= a.startBid)
  }

  ghost predicate Sound(l: Ledger)
  {
    UniqueIds(l.auctions) && forall a :: a in l.auctions ==> RowOk(a)
  }

  /** The cut is five percent exactly as long as the product fits 32 bits. */
  lemma CutIsSmall(amount: nat)
    ensures Cut(amount) <= amount && Cut(amount) <= 42949672
    ensures Cut(amount) == amount / 20 <==> amount <= 858993459
  {
  }

  /** What 32-bit arithmetic takes from a seller's profit. */
  function Shortfall(price: nat, deposit: nat): (n: nat)
  {
    CutIsSmall(price);
    ModIsLess(price + deposit - Cut(price));
    price + deposit - Cut(price) - Profit(price, deposit)
  }

  lemma ModIsLess(n: nat)
    ensures n % WRAP <= n && (n % WRAP == n <==> n < WRAP)
  {
  }

  /** The profit is the price and the deposit less the cut, exactly when that sum fits 32 bits. */
  lemma ProfitIsExact(price: nat, deposit: nat)
    ensures Profit(price, deposit) == price + deposit - Cut(price) <==> price + deposit - Cut(price) < WRAP
    ensures Shortfall(price, deposit) == 0 <==> price + deposit - Cut(price) < WRAP
  {
    hide Cut;
    CutIsSmall(price);
    ModIsLess(price + deposit - Cut(price));
  }

  lemma SendWealth(l: Ledger, receiver: nat, money: nat, p: nat)
    ensures Wealth(l.Send(receiver, money), p) == Wealth(l, p) + if receiver == p then money else 0
  {
    MailedByAppended(l.mail, Letter(receiver, money), p);
  }

  lemma PurseWealth(l: Ledger, player: nat, money: nat, p: nat)
    ensures Wealth(l.WithPurse(player, money), p) == Wealth(l, p) + if player == p then money - l.Purse(player) else 0
  {
  }

  lemma WithoutWealth(l: Ledger, a: Auction, p: nat)
    requires Sound(l) && a in l.auctions
    ensures Wealth(l.Without(a.id), p) == Wealth(l, p) - Held(a, p)
    ensures Sound(l.Without(a.id))
  {
    DeletedRow(l.auctions, a, p);
    DeletedRows(l.auctions, a.id);
  }

  lemma RefundWealth(l: Ledger, a: Auction, player: nat, p: nat)
    requires RowOk(a)
    ensures Wealth(Refund(l, a, player), p) == Wealth(l, p) + if a.bidder == p && p != player then a.bid else 0
    ensures Refund(l, a, player).auctions == l.auctions
  {
    SendWealth(l, a.bidder, a.bid, p);
  }

  lemma SellKeepsWealth(l: Ledger, player: nat, ownsItem: bool, startBid: nat, buyout: nat, vendorShare: nat,
                        expires: int, p: nat)
    requires p > 0
    ensures Wealth(Sell(l, player, ownsItem, startBid, buyout, vendorShare, expires).1, p) == Wealth(l, p)
    ensures Sound(l) && player > 0 ==>
              Sound(Sell(l, player, ownsItem, startBid, buyout, vendorShare, expires).1)
  {
    HeldByAppended(l.auctions,
                   Auction(MaxId(l.auctions) + 1, player, buyout, expires, 0, 0, startBid, Deposit(vendorShare)), p);
  }

  lemma {:induction false} MaxIdIsTaken(s: seq<Auction>)
    ensures s != [] && MaxId(s) > 0 ==> exists a :: a in s && a.id == MaxId(s)
    ensures s == [] ==> MaxId(s) == 0
  {
    if s != [] {
      MaxIdIsTaken(s[1..]);
      assert s[0].id == MaxId(s) || (s[1..] != [] && MaxId(s[1..]) == MaxId(s)) || MaxId(s) == 0;
    }
  }

  lemma {:induction false} FoundLast(s: seq<Auction>, a: Auction)
    requires forall b :: b in s ==> b.id != a.id
    ensures Find(s + [a], a.id) == [a]
  {
    if s != [] {
      assert (s + [a])[1..] == s[1..] + [a];
      FoundLast(s[1..], a);
    }
  }

  /**
   What a listing does: it is refused for a missing item or a purse below the deposit, which is the vendor's share but
   at least 100, and otherwise costs the deposit and adds one row, under the next id, with what the seller asked for.
   */
  lemma ListedRow(l: Ledger, player: nat, ownsItem: bool, startBid: nat, buyout: nat, vendorShare: nat, expires: int)
    returns (row: Auction)
    ensures var (outcome, after) := Sell(l, player, ownsItem, startBid, buyout, vendorShare, expires);
            var deposit := if vendorShare < 100 then 100 else vendorShare;
            && (outcome == ItemNotFound <==> !ownsItem)
            && (outcome == NotEnoughMoney <==> ownsItem && l.Purse(player) < deposit)
            && (outcome == Done <==> ownsItem && l.Purse(player) >= deposit)
            && (outcome != Done ==> after == l)
            && (outcome == Done ==>
                  && after.auctions == l.auctions + [row] && after.mail == l.mail
                  && (forall q :: after.Purse(q) == if q == player then l.Purse(q) - deposit else l.Purse(q))
                  && Find(after.auctions, row.id) == [row]
                  && row.owner == player && row.startBid == startBid && row.buyout == buyout && row.expires == expires
                  && row.deposit == deposit && row.bidder == 0 && row.bid == 0
                  && (forall a :: a in l.auctions ==> a.id < row.id)
                  && (row.id == 1 || exists a :: a in l.auctions && a.id + 1 == row.id))
  {
    var deposit := if vendorShare < 100 then 100 else vendorShare;
    row := Auction(MaxId(l.auctions) + 1, player, buyout, expires, 0, 0, startBid, deposit);
    MaxIdIsTaken(l.auctions);
    FoundLast(l.auctions, row);
  }

  /**
   The first bid on a listed row, by another player who can pay: below the start bid it is too low; from there up it
   stands; and a price that also reaches a positive buyout price takes the row away and pays the seller on that price.
   */
  ghost predicate FirstBidIsFair(l: Ledger, front: seq<Auction>, row: Auction, player: nat, price: nat)
  {
    var (outcome, after) := PlaceBid(l, player, row.id, price);
    && (price < row.startBid ==> outcome == BidTooLow && after == l)
    && (price >= row.startBid && (row.buyout == 0 || price < row.buyout) ==>
          && outcome == Done && after.Purse(player) == l.Purse(player) - price && after.mail == l.mail
          && after.auctions == front + [row.(bidder := player, bid := price)])
    && (price >= row.startBid && 0 < row.buyout <= price ==>
          && outcome == Done && after.Purse(player) == l.Purse(player) - price && after.auctions == front
          && var profit := (row.buyout + row.deposit - row.buyout * 5 % 0x1_0000_0000 / 100) % 0x1_0000_0000;
             after.mail == l.mail + [Letter(player, 0), Letter(row.owner, profit), Letter(row.owner, 0)])
  }

  lemma FirstBid(l: Ledger, front: seq<Auction>, row: Auction, player: nat, price: nat)
    requires l.auctions == front + [row] && (forall b :: b in front ==> b.id != row.id)
    requires row.bidder == 0 == row.bid && player > 0 && player != row.owner && l.Purse(player) >= price
    ensures FirstBidIsFair(l, front, row, player, price)
  {
    hide PlaceBid, BuyOut, Outbid, Delete, Rebid, Find, Profit;
    FoundLast(front, row);
    DeletedLast(front, row);
    RebidLast(front, row, player, price);
    BidOnRow(l, row, player, price);
    var paid := l.WithPurse(player, l.Purse(player) - price);
    BuyOutEffects(paid, row, player);
    OutbidEffects(paid, row, player, price);
    ProfitSpelledOut(row.buyout, row.deposit);
    assert forall s: seq<Letter> :: [] + s == s;
    assert l.mail + [] == l.mail;
  }

  /** So it is after every listing. */
  lemma ListedThenBid(l: Ledger, seller: nat, startBid: nat, buyout: nat, vendorShare: nat, expires: int,
                      player: nat, price: nat) returns (row: Auction)
    requires Sell(l, seller, true, startBid, buyout, vendorShare, expires).0 == Done
    requires player > 0 && player != seller && l.Purse(player) >= price
    ensures row.owner == seller && row.startBid == startBid && row.buyout == buyout && row.expires == expires
    ensures var listed := Sell(l, seller, true, startBid, buyout, vendorShare, expires).1;
            listed.auctions == l.auctions + [row] && FirstBidIsFair(listed, l.auctions, row, player, price)
  {
    hide FirstBidIsFair, Find;
    row := ListedRow(l, seller, true, startBid, buyout, vendorShare, expires);
    FirstBid(Sell(l, seller, true, startBid, buyout, vendorShare, expires).1, l.auctions, row, player, price);
  }

  lemma ProfitSpelledOut(price: nat, deposit: nat)
    ensures Profit(price, deposit) == (price + deposit - price * 5 % 0x1_0000_0000 / 100) % 0x1_0000_0000
  {
  }

  function RefundLetters(a: Auction, player: nat): seq<Letter>
  {
    if a.bidder > 0 && a.bidder != player && a.bid > 0 then [Letter(a.bidder, a.bid)] else []
  }

  lemma BuyOutEffects(l: Ledger, a: Auction, player: nat)
    ensures var after := BuyOut(l, a, player);
            && after.purses == l.purses && after.auctions == Delete(l.auctions, a.id)
            && after.mail == l.mail + (RefundLetters(a, player) +
                 [Letter(player, 0), Letter(a.owner, Profit(a.buyout, a.deposit)), Letter(a.owner, 0)])
  {
    hide Profit, Delete;
  }

  lemma OutbidEffects(l: Ledger, a: Auction, player: nat, price: nat)
    ensures var after := Outbid(l, a, player, price);
            && after.purses == l.purses && after.auctions == Rebid(l.auctions, a.id, player, price)
            && after.mail == l.mail + RefundLetters(a, player)
  {
    hide Rebid;
  }

  /** How a bid on a row that the query finds is answered. */
  lemma BidOnRow(l: Ledger, a: Auction, player: nat, price: nat)
    requires Find(l.auctions, a.id) == [a]
    ensures var (outcome, after) := PlaceBid(l, player, a.id, price);
            var buysOut := 0 < a.buyout <= price;
            var five := a.bid * 5 % 0x1_0000_0000 / 100;
            var least := (a.bid + if five == 0 then 1 else five) % 0x1_0000_0000;
            var charge := if a.bidder == player && a.bid < price then price - a.bid else price;
            if player == a.owner then outcome == CannotBidOwn && after == l
            else if price < a.startBid || (!buysOut && a.bid > 0 && price < least)
                 then outcome == BidTooLow && after == l
            else if l.Purse(player) < charge then outcome == NotEnoughMoney && after == l
            else
              && outcome == Done
              && var paid := l.WithPurse(player, l.Purse(player) - charge);
                 after == if buysOut then BuyOut(paid, a, player) else Outbid(paid, a, player, price)
  {
    hide BuyOut, Outbid, Find;
  }

  lemma {:induction false} DeletedLast(s: seq<Auction>, a: Auction)
    requires forall b :: b in s ==> b.id != a.id
    ensures Delete(s + [a], a.id) == s
  {
    if s != [] {
      assert (s + [a])[1..] == s[1..] + [a];
      DeletedLast(s[1..], a);
    }
  }

  lemma {:induction false} RebidLast(s: seq<Auction>, a: Auction, bidder: nat, bid: nat)
    requires forall b :: b in s ==> b.id != a.id
    ensures Rebid(s + [a], a.id, bidder, bid) == s + [a.(bidder := bidder, bid := bid)]
  {
    if s != [] {
      assert (s + [a])[1..] == s[1..] + [a];
      RebidLast(s[1..], a, bidder, bid);
    }
  }

  /**
   How a bid on a row is answered: not from the owner; not below the start bid, nor, unless it buys out, below the
   standing bid and five percent of it, or one; and not from a purse that cannot pay, where a standing bidder who
   offers more pays the difference. What is bought goes, what is bid on stands as that bid, another standing bidder is
   refunded.
   */
  lemma BidAnswered(l: Ledger, a: Auction, player: nat, price: nat)
    requires Sound(l) && a in l.auctions
    ensures var (outcome, after) := PlaceBid(l, player, a.id, price);
            var buysOut := 0 < a.buyout <= price;
            var five := a.bid * 5 % 0x1_0000_0000 / 100;
            var least := (a.bid + if five == 0 then 1 else five) % 0x1_0000_0000;
            var charge := if a.bidder == player && a.bid < price then price - a.bid else price;
            if player == a.owner then outcome == CannotBidOwn && after == l
            else if price < a.startBid || (!buysOut && a.bid > 0 && price < least)
                 then outcome == BidTooLow && after == l
            else if l.Purse(player) < charge then outcome == NotEnoughMoney && after == l
            else
              && outcome == Done
              && (forall q :: after.Purse(q) == if q == player then l.Purse(q) - charge else l.Purse(q))
              && (forall b :: b in after.auctions <==>
                    (b in l.auctions && b != a) || (!buysOut && b == a.(bidder := player, bid := price)))
              && (a.bidder > 0 && a.bidder != player && a.bid > 0 ==> Letter(a.bidder, a.bid) in after.mail[|l.mail|..])
  {
    hide PlaceBid, BuyOut, Outbid, Delete, Rebid, Find;
    FoundRow(l.auctions, a);
    DeletedRows(l.auctions, a.id);
    RebidRows(l.auctions, a, player, price);
    IdsDiffer(l.auctions, a);
    BidOnRow(l, a, player, price);
    var charge := if a.bidder == player && a.bid < price then price - a.bid else price;
    if l.Purse(player) >= charge {
      var paid := l.WithPurse(player, l.Purse(player) - charge);
      BuyOutEffects(paid, a, player);
      OutbidEffects(paid, a, player, price);
      assert l.mail <= BuyOut(paid, a, player).mail && l.mail <= Outbid(paid, a, player, price).mail;
    }
  }

  /** A letter with money is emptied into its receiver's purse, in 32 bits; anything else is left alone. */
  lemma CollectAnswered(l: Ledger, player: nat, letter: nat)
    ensures var after := Collect(l, player, letter);
            if letter < |l.mail| && l.mail[letter].receiver == player && l.mail[letter].money > 0 then
              && (forall q :: after.Purse(q) ==
                    if q == player then (l.Purse(q) + l.mail[letter].money) % 0x1_0000_0000 else l.Purse(q))
              && after.mail == l.mail[letter := Letter(player, 0)] && after.auctions == l.auctions
            else after == l
  {
  }

  /** What an expiry sends: to the buyer the item and to the seller price and deposit less the cut, or the item back. */
  lemma SettleLetters(l: Ledger, a: Auction)
    requires RowOk(a)
    ensures var after := Settle(l, a);
            var profit := (a.bid + a.deposit - a.bid * 5 % 0x1_0000_0000 / 100) % 0x1_0000_0000;
            && after.purses == l.purses
            && after.mail == l.mail +
                 if a.bid > 0 then [Letter(a.bidder, 0), Letter(a.owner, profit), Letter(a.owner, 0)]
                 else [Letter(a.owner, 0)]
  {
    hide Delete;
  }

  /** Without auctions and letters a player has what is in the purse. */
  lemma PurseIsWealth(l: Ledger, player: nat)
    requires l.auctions == [] && l.mail == []
    ensures Wealth(l, player) == l.Purse(player)
  {
  }

  lemma IdsDiffer(s: seq<Auction>, a: Auction)
    requires UniqueIds(s) && a in s
    ensures forall b :: b in s && b.id == a.id ==> b == a
  {
  }

  /** A cancel is done exactly for the owner of the row who can pay the cut on a standing bid; then the row is gone. */
  lemma CancelAnswered(l: Ledger, player: nat, id: nat)
    requires Sound(l)
    ensures var (outcome, after) := Cancel(l, player, id);
            && (outcome == NoSuchAuction <==> !exists a :: a in l.auctions && a.id == id && a.owner == player)
            && (outcome == Done ==>
                  (forall b :: b in after.auctions <==> b in l.auctions && b.id != id) &&
                  forall a :: a in l.auctions && a.id == id && a.bid > 0 ==>
                    after.mail == l.mail + [Letter(player, 0), Letter(a.bidder, a.bid)])
            && (outcome == NotEnoughMoney ==>
                  exists a :: a in l.auctions && a.id == id && a.bid > 0 &&
                              l.Purse(player) < a.bid * 5 % 0x1_0000_0000 / 100)
  {
    DeletedRows(l.auctions, id);
    if a :| a in l.auctions && a.id == id {
      FoundRow(l.auctions, a);
      IdsDiffer(l.auctions, a);
    }
  }

  /**
   Settling a buyout moves the buyout price from the standing bid's refund and the buyer's payment to the seller, less
   the cut and what wrapping takes.
   */
  lemma BuyOutWealth(l: Ledger, a: Auction, player: nat, p: nat)
    requires Sound(l) && a in l.auctions && player > 0 && p > 0
    ensures Sound(BuyOut(l, a, player))
    ensures Wealth(BuyOut(l, a, player), p) ==
            Wealth(l, p) - (if p == player && a.bidder == player then a.bid else 0) +
            if p == a.owner then a.buyout - Cut(a.buyout) - Shortfall(a.buyout, a.deposit) else 0
  {
    hide Wealth, Profit, Refund, Cut, Delete;
    var closed := l.Without(a.id);
    WithoutWealth(l, a, p);
    RefundWealth(closed, a, player, p);
    var r := Refund(closed, a, player);
    SendWealth(r, player, 0, p);
    SendWealth(r.Send(player, 0), a.owner, Profit(a.buyout, a.deposit), p);
    SendWealth(r.Send(player, 0).Send(a.owner, Profit(a.buyout, a.deposit)), a.owner, 0, p);
  }

  lemma OutbidWealth(l: Ledger, a: Auction, player: nat, price: nat, p: nat)
    requires Sound(l) && a in l.auctions && player > 0 && p > 0
    requires RowOk(a.(bidder := player, bid := price))
    ensures Sound(Outbid(l, a, player, price))
    ensures Wealth(Outbid(l, a, player, price), p) ==
            Wealth(l, p) + if p == player then price - (if a.bidder == player then a.bid else 0) else 0
  {
    RebidRow(l.auctions, a, player, price, p);
    RebidRows(l.auctions, a, player, price);
    RefundWealth(l, a, player, p);
  }

  lemma {:induction false} FoundRow(s: seq<Auction>, a: Auction)
    requires UniqueIds(s) && a in s
    ensures Find(s, a.id) == [a]
  {
    if s[0].id != a.id {
      FoundRow(s[1..], a);
    }
  }

  /** Every acceptable bid tops the standing one exactly when the sum that decides it fits 32 bits. */
  lemma AcceptedBidRises(a: Auction)
    requires RowOk(a) && 0 < a.bid < WRAP
    ensures (forall price: nat :: Acceptable(a, price) ==> price > a.bid) <==> a.bid + Increment(a.bid) < WRAP
  {
    hide Cut;
    CutIsSmall(a.bid);
    var next := a.bid + Increment(a.bid);
    if next >= WRAP {
      assert next % WRAP == next - WRAP;
      assert Acceptable(a, a.bid);
    }
  }

  /** A standing bidder who offers no more than the standing bid pays in full and forfeits it. */
  function Forfeit(a: Auction, player: nat, price: nat): nat
  {
    if a.bidder == player && a.bid >= price then a.bid else 0
  }

  /**
   A buyout takes `price` from the buyer and gives the seller the buyout price minus the cut; any other bid moves
   nobody's wealth. What wrapping takes comes on top.
   */
  lemma BidMovesWealth(l: Ledger, player: nat, id: nat, price: nat, p: nat)
    requires Sound(l) && player > 0 && p > 0
    ensures var (outcome, after) := PlaceBid(l, player, id, price);
            && Sound(after)
            && (outcome != Done ==> after == l)
            && (outcome == Done ==>
                  var a := Find(l.auctions, id)[0];
                  if IsBuyout(a, price) then
                    Wealth(after, p) == Wealth(l, p) - (if p == player then price else 0) +
                    (if p == a.owner then a.buyout - Cut(a.buyout) - Shortfall(a.buyout, a.deposit) else 0)
                  else
                    && Wealth(after, p) == Wealth(l, p) - (if p == player then Forfeit(a, player, price) else 0)
                    && Find(after.auctions, id) == [a.(bidder := player, bid := price)])
  {
    hide Wealth, Cut, NextBid, BuyOut, Outbid, Rebid, Delete, Shortfall;
    var (outcome, after) := PlaceBid(l, player, id, price);
    if outcome == Done {
      var a := Find(l.auctions, id)[0];
      var paid := l.WithPurse(player, l.Purse(player) - Charge(a, player, price));
      PurseWealth(l, player, l.Purse(player) - Charge(a, player, price), p);
      if IsBuyout(a, price) {
        BuyOutWealth(paid, a, player, p);
      } else {
        OutbidWealth(paid, a, player, price, p);
        OutbidRow(paid, a, player, price);
      }
    }
  }

  lemma OutbidRow(l: Ledger, a: Auction, player: nat, price: nat)
    requires Sound(l) && a in l.auctions
    ensures Find(Outbid(l, a, player, price).auctions, a.id) == [a.(bidder := player, bid := price)]
  {
    RebidRows(l.auctions, a, player, price);
    FoundRow(Rebid(l.auctions, a.id, player, price), a.(bidder := player, bid := price));
  }

  /** Cancelling costs the owner the deposit, and the cut when there is a standing bid; the bidder loses nothing. */
  lemma CancelCosts(l: Ledger, player: nat, id: nat, p: nat)
    requires Sound(l) && p > 0
    ensures var (outcome, after) := Cancel(l, player, id);
            && Sound(after)
            && (outcome != Done ==> after == l)
            && (outcome == Done ==>
                  var a := Find(l.auctions, id)[0];
                  Wealth(after, p) == Wealth(l, p) -
                  if p == a.owner then a.deposit + (if a.bid > 0 then Cut(a.bid) else 0) else 0)
  {
    hide Wealth, Cut, Delete;
    var (outcome, after) := Cancel(l, player, id);
    if outcome == Done {
      var a := Find(l.auctions, id)[0];
      var paid := if HasBid(a) then l.WithPurse(player, l.Purse(player) - Cut(a.bid)) else l;
      PurseWealth(l, player, l.Purse(player) - if HasBid(a) then Cut(a.bid) else 0, p);
      WithoutWealth(paid, a, p);
      SendWealth(paid.Without(id), player, 0, p);
      SendWealth(paid.Without(id).Send(player, 0), a.bidder, a.bid, p);
    }
  }

  /**
   What an expired auction moves: its price from bidder to seller less the cut, or the owner's deposit into nothing.
   */
  function SettleDelta(a: Auction, p: nat): int
  {
    if a.bid > 0 then (if p == a.owner then a.bid - Cut(a.bid) else 0) - (if p == a.bidder then a.bid else 0)
    else if p == a.owner then 0 - a.deposit else 0
  }

  /** What wrapping takes from the seller of an expired auction. */
  function SettleLoss(a: Auction, p: nat): nat
  {
    if a.bid > 0 && p == a.owner then Shortfall(a.bid, a.deposit) else 0
  }

  function SettleLosses(due: seq<Auction>, p: nat): nat
  {
    if due == [] then 0 else SettleLoss(due[0], p) + SettleLosses(due[1..], p)
  }

  function SettleDeltas(due: seq<Auction>, p: nat): int
  {
    if due == [] then 0 else SettleDelta(due[0], p) + SettleDeltas(due[1..], p)
  }

  lemma SettleMoves(l: Ledger, a: Auction, p: nat)
    requires Sound(l) && a in l.auctions && p > 0
    ensures Sound(Settle(l, a)) && Wealth(Settle(l, a), p) == Wealth(l, p) + SettleDelta(a, p) - SettleLoss(a, p)
    ensures forall b :: b in Settle(l, a).auctions <==> b in l.auctions && b.id != a.id
  {
    DeletedRows(l.auctions, a.id);
    hide Wealth, Cut, Delete, Profit;
    var closed := l.Without(a.id);
    WithoutWealth(l, a, p);
    SendWealth(closed, a.owner, 0, p);
    SendWealth(closed, a.bidder, 0, p);
    SendWealth(closed.Send(a.bidder, 0), a.owner, Profit(a.bid, a.deposit), p);
    SendWealth(closed.Send(a.bidder, 0).Send(a.owner, Profit(a.bid, a.deposit)), a.owner, 0, p);
  }

  lemma {:induction false} SettleAllMoves(l: Ledger, due: seq<Auction>, p: nat)
    requires Sound(l) && UniqueIds(due) && (forall a :: a in due ==> a in l.auctions) && p > 0
    ensures Sound(SettleAll(l, due))
    ensures Wealth(SettleAll(l, due), p) == Wealth(l, p) + SettleDeltas(due, p) - SettleLosses(due, p)
    ensures forall b :: b in SettleAll(l, due).auctions <==> b in l.auctions && forall a :: a in due ==> a.id != b.id
    decreases |due|
  {
    hide Wealth, Settle, Sound, SettleDelta, SettleLoss;
    if due != [] {
      SettleMoves(l, due[0], p);
      forall a | a in due[1..] ensures a in Settle(l, due[0]).auctions {
      }
      SettleAllMoves(Settle(l, due[0]), due[1..], p);
    }
  }

  lemma {:induction false} DueIsUnique(s: seq<Auction>, now: int)
    requires UniqueIds(s)
    ensures UniqueIds(Due(s, now))
  {
    if s != [] {
      DueIsUnique(s[1..], now);
      var d := Due(s[1..], now);
      assert forall j :: 0 <= j < |d| ==> d[j] in s[1..];
    }
  }

  /** Expiry settles exactly the auctions that are due and leaves exactly the others. */
  lemma ExpireMoves(l: Ledger, now: int, p: nat)
    requires Sound(l) && p > 0
    ensures Sound(Expire(l, now))
    ensures var due := Due(l.auctions, now);
            Wealth(Expire(l, now), p) == Wealth(l, p) + SettleDeltas(due, p) - SettleLosses(due, p)
    ensures forall b :: b in Expire(l, now).auctions <==> b in l.auctions && b.expires > now
  {
    var due := Due(l.auctions, now);
    DueIsUnique(l.auctions, now);
    SettleAllMoves(l, due, p);
    forall b | b in l.auctions ensures (forall a :: a in due ==> a.id != b.id) <==> b.expires > now {
      if b.expires <= now {
        assert b in due;
      }
    }
  }

  predicate CanCollect(l: Ledger, player: nat, letter: nat)
  {
    letter < |l.mail| && l.mail[letter].receiver == player && l.mail[letter].money > 0
  }

  /** What a purse that wraps loses when a letter is emptied into it. */
  function Spilled(l: Ledger, player: nat, letter: nat): nat
  {
    if !CanCollect(l, player, letter) then 0 else
      var sum := l.Purse(player) + l.mail[letter].money;
      ModIsLess(sum);
      sum - sum % WRAP
  }

  lemma CollectKeepsWealth(l: Ledger, player: nat, letter: nat, p: nat)
    ensures Sound(l) ==> Sound(Collect(l, player, letter))
    ensures Wealth(Collect(l, player, letter), p) ==
            Wealth(l, p) - if p == player then Spilled(l, player, letter) else 0
  {
    if CanCollect(l, player, letter) {
      MailedAfterUpdate(l.mail, letter, Letter(player, 0), p);
    }
  }

  // ---------- Whole runs ----------

  datatype Op =
    | SellOp(player: nat, ownsItem: bool, startBid: nat, buyout: nat, vendorShare: nat, expires: int)
    | BidOp(player: nat, id: nat, price: nat)
    | CancelOp(player: nat, id: nat)
    | ExpireOp(now: int)
    | CollectOp(player: nat, letter: nat)

  function Apply(l: Ledger, op: Op): Ledger
  {
    match op
    case SellOp(player, ownsItem, startBid, buyout, vendorShare, expires) =>
      Sell(l, player, ownsItem, startBid, buyout, vendorShare, expires).1
    case BidOp(player, id, price) => PlaceBid(l, player, id, price).1
    case CancelOp(player, id) => Cancel(l, player, id).1
    case ExpireOp(now) => Expire(l, now)
    case CollectOp(player, letter) => Collect(l, player, letter)
  }

  /** Players' ids are not zero. */
  predicate ByPlayer(op: Op)
  {
    op.SellOp? || op.BidOp? || op.CollectOp? ==> op.player > 0
  }

  /** What an operation costs or brings a player: the trade itself, never where the money is kept. */
  function Delta(l: Ledger, op: Op, p: nat): int
  {
    match op
    case SellOp(_, _, _, _, _, _) => 0
    case BidOp(player, id, price) =>
      if PlaceBid(l, player, id, price).0 != Done then 0 else
        var a := Find(l.auctions, id)[0];
        if !IsBuyout(a, price) then 0 else
          (if p == a.owner then a.buyout - Cut(a.buyout) else 0) - (if p == player then price else 0)
    case CancelOp(player, id) =>
      if Cancel(l, player, id).0 != Done || p != player then 0 else
        var a := Find(l.auctions, id)[0];
        0 - a.deposit - (if a.bid > 0 then Cut(a.bid) else 0)
    case ExpireOp(now) => SettleDeltas(Due(l.auctions, now), p)
    case CollectOp(_, _) => 0
  }

  function Run(l: Ledger, ops: seq<Op>): Ledger
    decreases |ops|
  {
    if ops == [] then l else Run(Apply(l, ops[0]), ops[1..])
  }

  function Deltas(l: Ledger, ops: seq<Op>, p: nat): int
    decreases |ops|
  {
    if ops == [] then 0 else Delta(l, ops[0], p) + Deltas(Apply(l, ops[0]), ops[1..], p)
  }

  /** What 32-bit arithmetic takes from a player besides. */
  function Loss(l: Ledger, op: Op, p: nat): nat
  {
    match op
    case SellOp(_, _, _, _, _, _) => 0
    case BidOp(player, id, price) =>
      if PlaceBid(l, player, id, price).0 != Done then 0 else
        var a := Find(l.auctions, id)[0];
        if IsBuyout(a, price) then (if p == a.owner then Shortfall(a.buyout, a.deposit) else 0)
        else if p == player then Forfeit(a, player, price) else 0
    case CancelOp(_, _) => 0
    case ExpireOp(now) => SettleLosses(Due(l.auctions, now), p)
    case CollectOp(player, letter) => if p == player then Spilled(l, player, letter) else 0
  }

  function Losses(l: Ledger, ops: seq<Op>, p: nat): nat
    decreases |ops|
  {
    if ops == [] then 0 else Loss(l, ops[0], p) + Losses(Apply(l, ops[0]), ops[1..], p)
  }

  lemma ApplyBalances(l: Ledger, op: Op, p: nat)
    requires Sound(l) && ByPlayer(op) && p > 0
    ensures Sound(Apply(l, op)) && Wealth(Apply(l, op), p) == Wealth(l, p) + Delta(l, op, p) - Loss(l, op, p)
  {
    hide Wealth, Cut, Sell, Expire, Collect, SettleDeltas, SettleLosses, Shortfall, Forfeit, Spilled;
    match op
    case SellOp(player, ownsItem, startBid, buyout, vendorShare, expires) =>
      SellKeepsWealth(l, player, ownsItem, startBid, buyout, vendorShare, expires, p);
    case BidOp(player, id, price) => BidMovesWealth(l, player, id, price, p);
    case CancelOp(player, id) => CancelCosts(l, player, id, p);
    case ExpireOp(now) => ExpireMoves(l, now, p);
    case CollectOp(player, letter) => CollectKeepsWealth(l, player, letter, p);
  }

  /** Over every run, a player's wealth changes by exactly the trades the player took part in and what wrapping took. */
  lemma {:induction false} RunBalances(l: Ledger, ops: seq<Op>, p: nat)
    requires Sound(l) && p > 0 && forall op :: op in ops ==> ByPlayer(op)
    ensures Sound(Run(l, ops)) && Wealth(Run(l, ops), p) == Wealth(l, p) + Deltas(l, ops, p) - Losses(l, ops, p)
    decreases |ops|
  {
    hide Wealth, Apply, Delta, Loss, Sound, ByPlayer;
    if ops != [] {
      ApplyBalances(l, ops[0], p);
      RunBalances(Apply(l, ops[0]), ops[1..], p);
    }
  }

  // ---------- When nothing wraps ----------

  /** The sums of the operation fit 32 bits, and nobody bids again without offering more. */
  predicate Fits(l: Ledger, op: Op)
  {
    match op
    case SellOp(_, _, _, _, _, _) => true
    case BidOp(player, id, price) =>
      PlaceBid(l, player, id, price).0 == Done ==>
        var a := Find(l.auctions, id)[0];
        if IsBuyout(a, price) then a.buyout + a.deposit - Cut(a.buyout) < WRAP
        else a.bidder == player && a.bid > 0 ==> price > a.bid
    case CancelOp(_, _) => true
    case ExpireOp(now) => SettlesExactly(Due(l.auctions, now))
    case CollectOp(player, letter) => CanCollect(l, player, letter) ==> l.Purse(player) + l.mail[letter].money < WRAP
  }

  ghost predicate AllFit(l: Ledger, ops: seq<Op>)
    decreases |ops|
  {
    ops == [] || (Fits(l, ops[0]) && AllFit(Apply(l, ops[0]), ops[1..]))
  }

  predicate SettlesExactly(due: seq<Auction>)
  {
    forall a :: a in due && a.bid > 0 ==> a.bid + a.deposit - Cut(a.bid) < WRAP
  }

  lemma {:induction false} SettlingLosesNothing(due: seq<Auction>, p: nat)
    requires SettlesExactly(due)
    ensures SettleLosses(due, p) == 0
  {
    hide Shortfall, Cut;
    if due != [] {
      ProfitIsExact(due[0].bid, due[0].deposit);
      SettlingLosesNothing(due[1..], p);
    }
  }

  lemma {:induction false} SettlingLoses(due: seq<Auction>, a: Auction)
    requires a in due && a.bid > 0 && a.bid + a.deposit - Cut(a.bid) >= WRAP
    ensures SettleLosses(due, a.owner) > 0
  {
    hide Shortfall, Cut;
    if due[0] == a {
      ProfitIsExact(a.bid, a.deposit);
    } else {
      SettlingLoses(due[1..], a);
    }
  }

  /** An operation whose sums fit takes nothing from anybody. */
  lemma FittingIsExact(l: Ledger, op: Op, p: nat)
    requires Fits(l, op)
    ensures Loss(l, op, p) == 0
  {
    hide Cut, PlaceBid, Shortfall, SettlesExactly;
    match op
    case SellOp(_, _, _, _, _, _) =>
    case BidOp(player, id, price) =>
      if PlaceBid(l, player, id, price).0 == Done {
        PlacedIsFound(l, player, id, price);
        var a := Find(l.auctions, id)[0];
        ProfitIsExact(a.buyout, a.deposit);
      }
    case CancelOp(_, _) =>
    case ExpireOp(now) => SettlingLosesNothing(Due(l.auctions, now), p);
    case CollectOp(player, letter) =>
      if CanCollect(l, player, letter) {
        ModIsLess(l.Purse(player) + l.mail[letter].money);
      }
  }

  /** An operation whose sums do not fit takes something from somebody. */
  lemma OverflowingTakes(l: Ledger, op: Op) returns (p: nat)
    requires Sound(l) && ByPlayer(op) && !Fits(l, op)
    ensures p > 0 && Loss(l, op, p) > 0
  {
    hide Cut, PlaceBid, Shortfall;
    match op
    case BidOp(player, id, price) =>
      PlacedIsFound(l, player, id, price);
      var a := Find(l.auctions, id)[0];
      ProfitIsExact(a.buyout, a.deposit);
      p := if IsBuyout(a, price) then a.owner else player;
    case ExpireOp(now) =>
      var due := Due(l.auctions, now);
      var a :| a in due && a.bid > 0 && a.bid + a.deposit - Cut(a.bid) >= WRAP;
      SettlingLoses(due, a);
      p := a.owner;
    case CollectOp(player, letter) =>
      ModIsLess(l.Purse(player) + l.mail[letter].money);
      p := player;
  }

  lemma PlacedIsFound(l: Ledger, player: nat, id: nat, price: nat)
    requires PlaceBid(l, player, id, price).0 == Done
    ensures Find(l.auctions, id) != []
  {
  }

  /** A run whose sums all fit takes nothing from anybody: its trades say everything. */
  lemma {:induction false} FittingRunIsExact(l: Ledger, ops: seq<Op>, p: nat)
    requires AllFit(l, ops)
    ensures Losses(l, ops, p) == 0
    decreases |ops|
  {
    hide Apply, Loss, Fits;
    if ops != [] {
      FittingIsExact(l, ops[0], p);
      FittingRunIsExact(Apply(l, ops[0]), ops[1..], p);
    }
  }

  /** In any other run somebody is poorer than the trades say. */
  lemma {:induction false} OverflowingRunTakes(l: Ledger, ops: seq<Op>) returns (p: nat)
    requires Sound(l) && (forall op :: op in ops ==> ByPlayer(op)) && !AllFit(l, ops)
    ensures p > 0 && Losses(l, ops, p) > 0
    decreases |ops|
  {
    hide Apply, Loss, Fits, Sound, ByPlayer;
    if !Fits(l, ops[0]) {
      p := OverflowingTakes(l, ops[0]);
    } else {
      ApplyBalances(l, ops[0], 1);
      p := OverflowingRunTakes(Apply(l, ops[0]), ops[1..]);
    }
  }

  // ---------- The server's tables, updated in place ----------

  class AuctionServer {
    var purses: map<nat, nat>
    var auctions: seq<Auction>
    var mail: seq<Letter>

    ghost function View(): Ledger
      reads this
    {
      Ledger(purses, auctions, mail)
    }

    constructor (purses: map<nat, nat>)
      ensures View() == Ledger(purses, [], []) && Sound(View())
    {
      this.purses, auctions, mail := purses, [], [];
    }

    method Purse(player: nat) returns (money: nat)
      ensures money == View().Purse(player)
    {
      money := if player in purses then purses[player] else 0;
    }

    method SendMail(receiver: nat, money: nat)
      modifies this`mail
      ensures View() == old(View()).Send(receiver, money)
    {
      mail := mail + [Letter(receiver, money)];
    }

    method SellItem(player: nat, ownsItem: bool, startBid: nat, buyout: nat, vendorShare: nat,
                    expires: int) returns (outcome: Outcome)
      modifies this
      ensures (outcome, View()) == Sell(old(View()), player, ownsItem, startBid, buyout, vendorShare, expires)
    {
      if !ownsItem {
        return ItemNotFound;
      }
      var deposit := BASE_DEPOSIT;
      if vendorShare > deposit {
        deposit := vendorShare;
      }
      var money := Purse(player);
      if money < deposit {
        return NotEnoughMoney;
      }
      purses := purses[player := money - deposit];
      var id := MaxId(auctions) + 1;
      auctions := auctions + [Auction(id, player, buyout, expires, 0, 0, startBid, deposit)];
      return Done;
    }

    method RefundOutbid(a: Auction, player: nat)
      modifies this`mail
      ensures View() == Refund(old(View()), a, player)
    {
      if a.bidder > 0 && a.bidder != player && a.bid > 0 {
        SendMail(a.bidder, a.bid);
      }
    }

    method CompleteBuyout(a: Auction, player: nat)
      modifies this
      ensures View() == BuyOut(old(View()), a, player)
    {
      hide Delete, Cut, Refund;
      auctions := Delete(auctions, a.id);
      var consignment := Cut(a.buyout);
      var profit := (a.buyout + a.deposit - consignment) % WRAP;
      RefundOutbid(a, player);
      SendMail(player, 0);
      SendMail(a.owner, profit);
      SendMail(a.owner, 0);
    }

    method RecordBid(a: Auction, player: nat, price: nat)
      modifies this
      ensures View() == Outbid(old(View()), a, player, price)
    {
      hide Rebid;
      RefundOutbid(a, player);
      auctions := Rebid(auctions, a.id, player, price);
    }

    method Bid(player: nat, id: nat, price: nat) returns (outcome: Outcome)
      modifies this
      ensures (outcome, View()) == PlaceBid(old(View()), player, id, price)
    {
      hide Find, Delete, Rebid, Cut, BuyOut, Outbid;
      var found := Find(auctions, id);
      if |found| == 0 {
        return NoSuchAuction;
      }
      var a := found[0];
      if a.owner == player {
        return CannotBidOwn;
      }
      if price < a.startBid {
        return BidTooLow;
      }
      var isBuyout := a.buyout > 0 && price >= a.buyout;
      if !isBuyout && a.bid > 0 {
        var step := Cut(a.bid);
        if step == 0 {
          step := 1;
        }
        if price < (a.bid + step) % WRAP {
          return BidTooLow;
        }
      }
      var charge := price;
      if a.bidder == player && a.bid < price {
        charge := price - a.bid;
      }
      var money := Purse(player);
      if money < charge {
        return NotEnoughMoney;
      }
      purses := purses[player := money - charge];
      if isBuyout {
        CompleteBuyout(a, player);
      } else {
        RecordBid(a, player, price);
      }
      return Done;
    }

    method CancelAuction(player: nat, id: nat) returns (outcome: Outcome)
      modifies this
      ensures (outcome, View()) == Cancel(old(View()), player, id)
    {
      var found := Find(auctions, id);
      if |found| == 0 || found[0].owner != player {
        return NoSuchAuction;
      }
      var a := found[0];
      if a.bidder > 0 && a.bid > 0 {
        var cut := Cut(a.bid);
        var money := Purse(player);
        if money < cut {
          return NotEnoughMoney;
        }
        purses := purses[player := money - cut];
      }
      auctions := Delete(auctions, id);
      SendMail(a.owner, 0);
      if a.bidder > 0 && a.bid > 0 {
        SendMail(a.bidder, a.bid);
      }
      return Done;
    }

    method ExpireAuctions(now: int)
      modifies this
      ensures View() == Expire(old(View()), now)
    {
      hide Delete, Cut, Due;
      var expired := Due(auctions, now);
      for i := 0 to |expired|
        invariant SettleAll(View(), expired[i..]) == Expire(old(View()), now)
      {
        var a := expired[i];
        assert expired[i..][0] == a && expired[i..][1..] == expired[i + 1..];
        ghost var before := View();
        auctions := Delete(auctions, a.id);
        if a.bidder > 0 && a.bid > 0 {
          var consignment := Cut(a.bid);
          var profit := (a.bid + a.deposit - consignment) % WRAP;
          SendMail(a.bidder, 0);
          SendMail(a.owner, profit);
          SendMail(a.owner, 0);
        } else {
          SendMail(a.owner, 0);
        }
        assert View() == Settle(before, a);
      }
    }

    method TakeMoney(player: nat, letter: nat)
      modifies this
      ensures View() == Collect(old(View()), player, letter)
    {
      if letter >= |mail| || mail[letter].receiver != player || mail[letter].money == 0 {
        return;
      }
      var money := Purse(player);
      purses := purses[player := (money + mail[letter].money) % WRAP];
      mail := mail[letter := Letter(player, 0)];
    }
  }
}
