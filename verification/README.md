# Verified models of a game server's protocols, ledgers and translations

The server keeps a persistent world: players earn achievements, trade in an auction house, fight over battlegrounds,
talk on channels, and log in with a password that is never sent. Underneath run an event queue, a worker pool, a script
hook dispatcher, and a database layer that splits, translates and migrates SQL. This project models those parts in Dafny
and proves what they are for. Each file is one module.

| file | what it models |
|---|---|
| `Achievements.dfy` | criteria counters, completion checks, and the recursion by which one achievement completes another |
| `AuctionHouse.dfy` | purses, the auction table and mailed money under listing, bidding, buyout, cancelling, expiry and collecting |
| `Srp6.dfy`, `ModArith.dfy` | the SRP6 login: both sides' computations down to bytes, and the modular arithmetic under them |
| `EventQueue.dfy` | the cancellable event queue over a binary heap, with the heap's sifting written out |
| `Hooks.dfy` | the script hook dispatcher, whose callbacks register, cancel and clear hooks while it runs |
| `WorkerPool.dfy` | the worker pool and the asynchronous database calls, as interleaved steps |
| `SqlSplit.dfy` | splitting a SQL script into statements |
| `SqlLiterals.dfy` | rewriting MySQL string and hex literals for SQLite |
| `Parens.dfy` | the quote-aware parenthesis scanners |
| `Migrations.dfy` | the migration runner over its table of applied migrations |
| `Absorption.dfy` | damage absorption by shields on players and creatures |
| `ResourceClock.dfy` | the resource race that two battlegrounds share |
| `ArathiBasin.dfy`, `EyeOfTheStorm.dfy` | nodes, towers, the flag, and their resources |
| `StrandOfTheAncients.dfy` | the two-round siege and its verdict |
| `Channels.dfy` | chat channels: membership, owners, moderators, bans |
| `Wrappers.dfy`, `Sequences.dfy` | optional values; filtering and sorted insertion |

Code that changes state is a class whose methods are proved against a specification: a function of the old state, an
independent reading of what happened (the event history of a siege, the tallies of a hook), or a predicate over the new
state. What the system promises is then proved of that specification. SQL tables are sequences or maps, time is an
integer, hashes are arbitrary functions, and packets, broadcasts and logging have no effect.

## What the proofs brought out

- Achievements stay complete at every call boundary even when a 32-bit counter wraps, so no assumption on counters is
  made; wrapping is modelled. They stay deserved too: once an achievement is earned its counters stand still.
- The auction ledger balances to the copper exactly when every sum it forms fits 32 bits. A standing bid so high that
  the bid plus five percent wraps can be underbid, and a bidder who then bids again pays twice
  (`AuctionHouse.AcceptedBidRises`, `AuctionHouse.OverflowingRunTakes`).
- Hooks: a hook that a later callback of the same Trigger cancels can stay in the table until the next Trigger, but it
  never fires again. Only a request that names it takes a hook away before its shots are used up
  (`Hooks.FiresAsPromised`).
- Literal translation keeps a statement's meaning if and only if no hex literal is directly followed by a quote
  (`SqlLiterals.MeaningKept`, both directions); text that ends inside a string is covered.
- A closed worker pool has run every accepted task when its parent context was not cancelled. When it was, an accepted
  task can be lost and its caller's result channel stays empty (`WorkerPool.CancelledParentLosesTask`).
- In the siege a draw means that both defences held, except when both attacks took no time at all
  (`StrandOfTheAncients.WhoWins`). Round two announces that the first time must be beaten; at time zero equalling it is
  enough for a draw.
- The resource race depends on the length of its ticks when both sides are about to win: `ResourceClock.TicksAdd` and
  `ResourceClock.SplitChangesWinner` say exactly when two ticks differ from one.
- An Arathi Basin banner used out of range still records the player as the assailant whom a later capture credits.
- A flag's return timer that was stopped too late returns whichever flag lies on the ground.
- A channel's owner is shielded from other moderators' single commands, but any moderator may hand the channel on.
- A buyout takes the offered price and settles at the buyout price; the difference belongs to nobody, and the ledger
  says so.

## Model

| member | source | states |
|---|---|---|
| Achievements.Session.CheckComplete | engine/world/achievements.go:1073-1105 | the achievement is earned by the call exactly when it is known, open to the team, has criteria, and all of them stand met, or as many as it asks for; from a state where only this one may be met but unearned, every deserved achievement is earned afterwards, save those the session was loaded with; what happened is a log of legal steps, in which an achievement is earned once, when the counters as replayed so far deserve it, and a counter moves only while its achievement is open, by a completion in the log; nothing changes if it is not met; terminates by the count of known unearned achievements |
| Achievements.Catalog.MetIsDeserved | engine/world/achievements.go:1073-1105 | the counting check is exact: for every catalog, team and counters it says yes if and only if the achievement is known, its faction is open to the team, it has a criterion, and, when it names no minimum, every criterion has a stored counter at or above a positive quantity, and else the set of criteria that do has at least that many members |
| Achievements.Catalog.StandingIsCounted | engine/world/achievements.go:1086-1104 | the loop that counts done criteria counts the set of them, and counts all exactly when each is done |
| Achievements.Session.Complete | engine/world/achievements.go:1107-1142 | earns the achievement once; afterwards a criterion moved only by the completions it counts, by all of them while it is open, and the points criteria have caught up with the points earned |
| Achievements.Session.UpdateCriteria | engine/world/achievements.go:805-855 | every criterion of the type and of the asset or of no asset, whose achievement stays open, ends at its old counter plus the quantity modulo 2^32 when its conditions hold, and all others keep theirs, plus the completions they count; nothing deserved stays unearned and whatever was earned is deserved by the final counters; when nothing was earned, counters and timers are spelled out exactly: the timers of the criteria that reached their quantity stop |
| Achievements.Session.SetCriteria | engine/world/achievements.go:860-912 | the same for absolute values: an open matching counter ends at the larger of itself and the value, and never goes back; when nothing was earned, every counter and timer is spelled out exactly |
| Achievements.Session.PutCounter | engine/world/achievements.go:839-854 | storing one counter and checking its achievement leaves nothing deserved unearned, and moves other counters only by the completions they count, each step legal; timers only ever stop, and when nothing was earned just this criterion's stops, if the counter reaches its quantity or the check is forced |
| Achievements.Session.ExploreCriteria | engine/world/achievements.go:1219-1260 | exploring a zone raises exactly its criteria to 1, without side conditions; nothing deserved stays unearned and nothing undeserved is earned; when nothing was earned exactly the timers of the criteria discovered here stop |
| Achievements.Session.StartTimed | engine/world/achievements.go:932-979 | exactly the open criteria with a timer that the event and the entry start, and that are not running, start at zero; every other counter stays; nothing becomes deserved |
| Achievements.Session.RemoveProgress | engine/world/achievements.go:985-1013 | forgets one counter and its timer, and nothing else; nothing becomes deserved |
| Achievements.Session.ResetByCondition | engine/world/achievements.go:1030-1057 | exactly the open, unmet criteria that name the condition (and no other value for it) lose counter and timer, each counter and timer spelled out |
| Achievements.Session.TotalPoints | engine/world/achievements.go:1133-1140 | the loop over the earned set, in any order, sums the points of the known ones modulo 2^32 |
| Achievements.Session.constructor | engine/world/achievements.go:531-558 | any loaded rows: every deserved achievement is earned except a backlog, which is exactly what the rows deserve and have not earned |
| Achievements.CompletionKeeps | engine/world/achievements.go:1107-1142 | award, then meta criteria, then points criteria: together a criterion moves only by the completions it counts, by all of them while its own achievement is open |
| Achievements.GrewTransitive | engine/world/achievements.go:1107-1142 | logs of legal steps compose over nested completions, and answer the events that earlier completions caused |
| Achievements.GrownIsDeserved | engine/world/achievements.go:1073-1142 | everything earned along a log of legal steps is deserved by the counters at its end, whatever wrapped in between |
| Achievements.EarnedStandStill | engine/world/achievements.go:831-834 | no legal step moves a counter of an earned achievement |
| Achievements.MetaCriterionRisesByOne | engine/world/achievements.go:1131 | an open criterion for one achievement rises by exactly one when that achievement is completed and its conditions hold, and otherwise stays |
| Achievements.PointsAreExact | engine/world/achievements.go:1133-1141 | after a completion an open points criterion stands exactly at the points earned, or where it was if that was higher, as long as the points fit 32 bits |
| Achievements.QuietPass | engine/world/achievements.go:805-855 | when a pass over criteria completed nothing, each counter stands exactly at what the pass asked for it, and counters of earned achievements stand still |
| Achievements.Catalog.OneCounterOneAchievement | engine/world/achievements.go:1086-1104 | changing one counter cannot make another achievement deserved, nor its own unless the criterion is met |
| Achievements.Catalog.FewerCounters | engine/world/achievements.go:1030-1057 | lowering or forgetting counters makes nothing deserved |
| Achievements.Catalog.MatchedAreUnique | engine/world/achievements.go:814-827 | the two index lists an event collects never name a criterion twice |
| Achievements.PointsWithout | engine/world/achievements.go:1133-1140 | the sum of points does not depend on the order in which the earned map is walked |
| AuctionHouse.AuctionServer.SellItem | engine/world/auctionhouse.go:254-294 | listing does to purses and table what `Sell` says; `ListedRow` says what that is for the row, and `ListedThenBid` for whoever bids on it |
| AuctionHouse.AuctionServer.Bid | engine/world/auctionhouse.go:335-451 | bidding and buying out do what `PlaceBid` says, with the same refusals in the same order |
| AuctionHouse.AuctionServer.CompleteBuyout | engine/world/auctionhouse.go:376-420 | a buyout deletes the row, refunds another standing bidder and mails the seller buyout plus deposit minus the cut |
| AuctionHouse.AuctionServer.RecordBid | engine/world/auctionhouse.go:433-449 | a bid refunds another standing bidder and takes the bidder's place in the row |
| AuctionHouse.AuctionServer.CancelAuction | engine/world/auctionhouse.go:615-660 | cancelling takes the cut from the owner when there is a bid, deletes the row and mails the bid back |
| AuctionHouse.AuctionServer.ExpireAuctions | engine/world/auctionhouse.go:666-748 | the loop over the expired rows does what `Expire` says |
| AuctionHouse.AuctionServer.TakeMoney | engine/world/mail.go:389-411 | the receiver's purse gains the letter's money, which becomes zero |
| AuctionHouse.ListedRow | engine/world/auctionhouse.go:254-294 | every listing: refused exactly for a missing item or a purse below the deposit (the vendor share, at least 100); else the seller pays exactly the deposit and the table gains one row, found by its id, above every other id and next to the largest, with the owner, start bid, buyout, expiry and deposit asked for and no bidder; all other rows and letters stay |
| AuctionHouse.ListedThenBid | engine/world/auctionhouse.go:278-451 | listing and then the first bid of another solvent player: below the start bid it is refused as too low; from it up, short of a positive buyout, it is accepted and stands as that player's bid; at start bid and buyout the row is gone and the seller is mailed the listed buyout plus the deposit less five percent of the buyout, in 32 bits |
| AuctionHouse.BidAnswered | engine/world/auctionhouse.go:335-451 | every bid on every row: which refusal, in which order, against start bid and least raise spelled out in 32 bits; else exactly the charge leaves the bidder's purse, the row goes or carries the bid, and another standing bidder is mailed the bid back |
| AuctionHouse.CancelAnswered | engine/world/auctionhouse.go:615-660 | every cancel: which refusal and why; when done the row is gone and the standing bid is mailed back |
| AuctionHouse.CollectAnswered | engine/world/mail.go:389-411 | collecting empties exactly the receiver's own letter with money into the purse, in 32 bits |
| AuctionHouse.SettleLetters | engine/world/auctionhouse.go:691-747 | an expiry mails the item to the bidder and bid plus deposit less five percent of the bid to the owner, in 32 bits, or the item back to the owner |
| AuctionHouse.PurseIsWealth | engine/world/auctionhouse.go:278-447 | without auctions and letters a player's wealth is the purse, so that exact changes of wealth are changes of money |
| AuctionHouse.SellKeepsWealth | engine/world/auctionhouse.go:278-294 | a listing changes nobody's wealth: the deposit is still the seller's while it is held |
| AuctionHouse.BidMovesWealth | engine/world/auctionhouse.go:335-451 | for every price: a refused bid changes nothing; an accepted one that does not buy out changes nobody's wealth, except that a standing bidder who offers no more forfeits the standing bid; a buyout costs the buyer exactly the price and brings the seller the buyout price minus the cut and minus what wrapping takes |
| AuctionHouse.AcceptedBidRises | engine/world/auctionhouse.go:341-358 | every acceptable price is above the standing bid if and only if bid plus increment fits 32 bits |
| AuctionHouse.CancelCosts | engine/world/auctionhouse.go:615-660 | a cancel costs the owner exactly the deposit, and the cut when there was a bid; nobody else's wealth changes |
| AuctionHouse.SettleMoves | engine/world/auctionhouse.go:691-747 | an expiry sale moves the last bid to the seller minus the cut; an unsold expiry costs the owner exactly the deposit |
| AuctionHouse.ExpireMoves | engine/world/auctionhouse.go:666-748 | the due auctions and only they are settled, each once, with the sum of their effects on everybody's wealth |
| AuctionHouse.CollectKeepsWealth | engine/world/mail.go:389-411 | collecting money moves it from mail to purse and changes nobody's wealth, except by what a wrapping purse spills |
| AuctionHouse.ApplyBalances | engine/world/auctionhouse.go:278-451 | every operation changes a player's wealth by exactly the trade less what wrapping takes, and keeps the table sound |
| AuctionHouse.RunBalances | engine/world/auctionhouse.go:278-747 | over every run of operations with any amounts, a player's wealth changes by exactly the trades the player took part in, less what wrapping took |
| AuctionHouse.FittingRunIsExact | engine/world/auctionhouse.go:278-747 | a run whose sums all fit 32 bits takes nothing from anybody besides the trades |
| AuctionHouse.OverflowingRunTakes | engine/world/auctionhouse.go:278-747 | and every other run does take something from somebody |
| AuctionHouse.CutIsSmall | engine/world/auctionhouse.go:382 | the 32-bit cut never exceeds the amount, and is a twentieth, rounded down, if and only if the amount is at most 858993459 |
| AuctionHouse.ProfitIsExact | engine/world/auctionhouse.go:382-383 | the 32-bit profit is price plus deposit minus the cut if and only if that fits 32 bits |
| Srp6.LittleInt | engine/crypto/srp6.go:176-182 | reversing and reading big-endian is reading little-endian |
| Srp6.LittleBytes | engine/crypto/srp6.go:184-190 | writes the little-endian digits, padded or cut to the size |
| Srp6.ResidueRoundTrip | engine/crypto/srp6.go:176-190 | a residue of the modulus survives the 32-byte encoding |
| Srp6.Interleave | engine/crypto/srp6.go:142-164 | the session key is the interleaved hash of section 3.1 of RFC 2945, of the even and odd bytes after an even number of leading zeros |
| Srp6.CutHalves | engine/crypto/srp6.go:142-157 | cutting both halves at the rounded-up count of zeros is cutting the string and then halving it |
| Srp6.CalculateVerifier | engine/crypto/srp6.go:134-140 | the encoding of 7 to the hash of salt and hashed name, colon and password, modulo the 256-bit modulus |
| Srp6.MakeClientProof | engine/crypto/srp6.go:30-56 | refuses the empty private key exactly, and otherwise computes A, M and K; M is the hash of the mask, the hashed name, salt, A, B and K, spelled out |
| Srp6.MakeGroupMask | engine/crypto/srp6.go:46-52 | each byte is the exclusive or of the bytes of the two hashes, of the modulus and of 7 |
| Srp6.ServerState.constructor | engine/crypto/srp6.go:88-98 | keeps name, salt and verifier, and B encodes 7 to the private key plus three times the verifier, modulo the modulus |
| Srp6.ServerState.VerifyChallengeResponse | engine/crypto/srp6.go:100-132 | answers once; accepts exactly when A is not zero modulo the modulus and the proof is the hash of mask, hashed name, salt, A, B and K, where K is the key of (A v^u)^b; all spelled out down to the hash; and returns that K |
| Srp6.GeneratorPowerIsNonzero | engine/crypto/srp6.go:35 | no power of the generator is zero modulo N, from an inverse of 7 |
| Srp6.HonestPublicIsNonzero | engine/crypto/srp6.go:108-111 | so an honest client's public value is never refused |
| Srp6.ResiduesAgree | engine/crypto/srp6.go:41-44 | (B - 3v)^(a+ux) and (A v^u)^b are equal modulo any positive n |
| Srp6.SecretsAgree | engine/crypto/srp6.go:108-116 | both sides compute the same shared secret through the byte encodings |
| Srp6.HandshakeAgrees | engine/crypto/srp6.go:30-132 | for all names, passwords, salts and private keys the server accepts the honest client's proof and returns the client's key |
| Srp6.AnswerMeans | engine/crypto/srp6.go:100-132 | the server accepts exactly a nonzero A with the hash over mask, name, salt, A, B and the key of (A v^u)^b modulo the modulus |
| Srp6.ClientProofMeans | engine/crypto/srp6.go:30-56 | the client sends 7^a, derives its key from (B - 3 7^x)^(a + ux), and hashes mask, name, salt, A, B and the key |
| Srp6.SecretsSpelledOut | engine/crypto/srp6.go:39-44 | both secrets equal the protocol's formulas without the reductions on the way, also where B - 3 7^x is negative |
| Srp6.AcceptedProofIsUnique | engine/crypto/srp6.go:100-132 | for one server state and one A at most one proof is accepted |
| Srp6.TranscriptIsBound | engine/crypto/srp6.go:119-127 | equal proofs are of equal name, salt, A, B and K, or two different byte strings with the same hash are exhibited |
| Srp6.AcceptedKeyIsTheServers | engine/crypto/srp6.go:100-132 | a proof that is accepted and was made over any key was made over the server's own key and transcript, or a collision is exhibited |
| Srp6.AcceptedClientHasTheSecret | engine/crypto/srp6.go:30-132 | a client whose own computation is accepted has the server's name, salt and B and arrives at the significant bytes of the server's secret, or a collision is exhibited |
| Srp6.KeyIsBound | engine/crypto/srp6.go:142-164 | equal session keys come from secrets with equal significant bytes, or a collision is exhibited |
| Srp6.ExponentIsBound | engine/crypto/srp6.go:134-140 | equal private exponents have equal salt, name and password, or a collision is exhibited; names hold no colon |
| Srp6.ScramblerIsBound | engine/crypto/srp6.go:112-113 | equal scramblers have equal A and B, or a collision is exhibited |
| Srp6.KeyIsSpelledOut | engine/crypto/srp6.go:142-164 | the session key is the two hashes of every other byte of the secret, from the first nonzero byte or the even place after it |
| EventQueue.EventQueue.Add | engine/runtime/events.go:57-64 | a fresh id, one more element, heap and index fields kept |
| EventQueue.EventQueue.Cancel | engine/runtime/events.go:70-80 | true exactly for a queued event not yet cancelled; afterwards exactly that one more is cancelled and it never fires |
| EventQueue.EventQueue.RunDue | engine/runtime/events.go:82-100 | fires exactly the uncancelled due events that have a callback and keeps exactly the later ones; of two fired events the first is due earlier, or at the same time and was added earlier; no event fires twice |
| EventQueue.EventQueue.NextDue | engine/runtime/events.go:102-112 | the least live due time, if there is one; only cancelled events are dropped |
| EventQueue.EventQueue.Push | engine/runtime/events.go:34-38 | the heap gains exactly the item, with index fields right |
| EventQueue.EventQueue.Pop | engine/runtime/events.go:39-47 | takes the root off, marks it, and leaves a heap of the rest |
| EventQueue.EventQueue.Swap | engine/runtime/events.go:33 | exchanges two places and keeps the index fields right |
| EventQueue.EventQueue.Up | engine/runtime/events.go:26-38 | sifting up repairs a heap broken at one leaf |
| EventQueue.EventQueue.Down | engine/runtime/events.go:26-47 | sifting down repairs a heap broken at the root |
| EventQueue.RootIsLeast | engine/runtime/events.go:27-32 | the root of a heap is not after any element |
| EventQueue.LeastComesFirst | engine/runtime/events.go:27-32 | with distinct ids the root is strictly first |
| EventQueue.SortedListingIsUnique | engine/runtime/events.go:27-32 | a set of events has one sorted listing, so the firing order is determined |
| Hooks.Dispatcher.RegisterHook | engine/scripting/runtime.go:556-576 | a fresh id at the end of the table, with its shots |
| Hooks.Dispatcher.CancelHook | engine/scripting/runtime.go:672-681 | the hook leaves the table and is marked for good |
| Hooks.Dispatcher.ClearHooks | engine/scripting/runtime.go:660-670 | exactly the matching hooks leave the table and are marked |
| Hooks.Dispatcher.Perform | engine/scripting/runtime.go:221 | whatever a callback asks for is done in order, no more and no less, and keeps the dispatcher consistent |
| Hooks.DoMeans | engine/scripting/runtime.go:556-681 | what a request does: registering appends under the next id; cancelling takes the one hook off the table and marks it; clearing does so to exactly the hooks of the kind and of the event, or of every event when it is negative |
| Hooks.Dispatcher.Trigger | engine/scripting/runtime.go:189-252 | calls in registration order exactly the hooks that were ready when it started and that no callback called before their turn had cancelled or cleared; exactly the requests of the called hooks take effect; each tally goes up by exactly this Trigger; hooks registered meanwhile start with empty tallies; table and tallies agree afterwards |
| Hooks.FiresAsPromised | engine/scripting/runtime.go:189-252 | over every run of registrations, requests and Triggers: a hook with n shots is called at most n times and only at Triggers for it, and when no request names it exactly the smaller of n and the Triggers for it since its registration |
| Hooks.NamedFallsSilent | engine/scripting/runtime.go:203-205 | once a request cancels or clears a hook, no later step of any run calls it |
| Hooks.RunMovesTally | engine/scripting/runtime.go:189-252 | over every run a hook's tally counts its calls and the Triggers for it, and the hook is cancelled only if a request named it |
| Hooks.MarkedAreNamed | engine/scripting/runtime.go:660-681 | a sequence of requests marks no hook that it does not name, and marks every known hook that it names and that can still fire |
| Hooks.TurnTaken | engine/scripting/runtime.go:202-240 | a hook found uncancelled at its turn was ready at the start and named by no callback before it |
| Hooks.TurnRefused | engine/scripting/runtime.go:203-205 | a hook found cancelled at its turn was not ready at the start or was named by a callback before it |
| Hooks.PassedIsConsistent | engine/scripting/runtime.go:202-249 | what a pass leaves, with the hooks registered meanwhile, agrees with every tally |
| Hooks.PassTally | engine/scripting/runtime.go:202-240 | the fate of one uncancelled hook in a pass: its entry and its tally move together |
| WorkerPool.StepIsGood | engine/runtime/workers.go:38-81 | every step of a submitter, closer or worker keeps the pool's invariant |
| WorkerPool.NothingIsLost | engine/runtime/workers.go:38-81 | in every interleaving nothing is sent on a closed channel, and every accepted task was run, is being run or is queued |
| WorkerPool.ClosedMeansRun | engine/runtime/workers.go:55-64 | when Close has returned a task was run, once, exactly if it was accepted and is not left in the queue, and the queue is empty unless the parent was cancelled; result channels likewise |
| WorkerPool.ResultChannelsNeverFill | engine/database/pool.go:24-46 | a call's result channel gets at most one value, and one only from a failed call or an accepted task |
| WorkerPool.CancelledParentLosesTask | engine/runtime/workers.go:66-81 | a run in which the parent is cancelled and an accepted task never runs |
| WorkerPool.NeverStuck | engine/runtime/workers.go:38-64 | while a Submit or Close is unfinished the pool can take a step of its own |
| WorkerPool.WorkRunsOut | engine/runtime/workers.go:55-81 | once the queue is closed the workers have a fixed number of steps left, so waiting for them ends |
| WorkerPool.StartedInOrder | engine/runtime/workers.go:38-81 | in every interleaving the workers start tasks in the order in which they got into the queue, and what is queued at the end is what got in last |
| WorkerPool.RefusedForAReason | engine/runtime/workers.go:38-53 | in every interleaving a call is refused only when the pool is closed or a context is done |
| WorkerPool.ClosedAcceptsNothing | engine/runtime/workers.go:38-64 | once the closed flag is up no interleaving accepts anything more, not even from calls that began before |
| WorkerPool.NewPoolIsGood | engine/runtime/workers.go:22-36 | whatever sizes are asked for, a new pool has at least one worker and a queue for at least as many tasks as workers, and otherwise the sizes asked for |
| WorkerPool.StepClosesTogether | engine/runtime/workers.go:46-60 | no submitter waits to send once the flag is up, and the channel is closed once |
| SqlSplit.SplitSQL | engine/database/sqlsplit.go:5-73 | the loop computes the recursive reading of the text |
| SqlSplit.SplitInvertsPrint | engine/database/sqlsplit.go:5-73 | splitting the semicolon-terminated concatenation of well-formed statements returns them |
| SqlSplit.SplitIsWellFormed | engine/database/sqlsplit.go:5-73 | on text without comments and with closed quotes every statement is well formed |
| SqlSplit.SplitIsIdempotent | engine/database/sqlsplit.go:5-73 | so printing and splitting again changes nothing |
| SqlSplit.SplitSkipsComments | engine/database/sqlsplit.go:5-73 | for all well-formed statements and any terminated line or block comments around them, splitting the text returns just the statements |
| SqlSplit.CommentIsSkipped | engine/database/sqlsplit.go:13-25 | a terminated comment of any of the three kinds is as if it were not there, wherever it stands outside quotes |
| SqlSplit.OpenCommentSwallows | engine/database/sqlsplit.go:13-25 | a comment that is never closed swallows the rest of the text |
| SqlSplit.QuotedIsKept | engine/database/sqlsplit.go:26-47 | whatever stands between quotes, with its quotes doubled and backslashes escaped, is kept as it is |
| SqlSplit.PlainIsKept | engine/database/sqlsplit.go:43-67 | outside quotes a character is kept unless it is a semicolon, a quote or the start of a comment |
| SqlSplit.SemicolonEnds | engine/database/sqlsplit.go:60-66 | a semicolon outside quotes ends the statement, which is dropped when blank |
| SqlSplit.TrimMeans | engine/database/sqlsplit.go:61 | trimming leaves what lies between the first and the last character that is not white space |
| SqlLiterals.NormalizeMySqlLiterals | engine/database/dump.go:380-438 | the loop computes the rewriting, and the output read as SQLite is the input read as MySQL exactly when hex literals stand clear of quotes |
| SqlLiterals.MeaningKept | engine/database/dump.go:380-438 | for all texts: same raw characters and string values in both dialects if and only if no hex literal is directly followed by a quote |
| SqlLiterals.StringKept | engine/database/dump.go:407-435 | inside a string both readers find the same value |
| SqlLiterals.HexRead | engine/database/dump.go:391-403 | a rewritten hex literal is read back if no quote follows, and differs if one does |
| SqlLiterals.MySqlEscapeIsRead | engine/database/dump.go:407-435 | an escaper written on its own, as a dump writes strings, is inverted by the MySQL reader for every value |
| SqlLiterals.DumpedStringArrives | engine/database/dump.go:380-438 | so every string that a dump writes becomes a literal that SQLite reads as that string |
| SqlLiterals.HexIsRewritten | engine/database/dump.go:391-403 | 0x and 0X before hex digits become a blob literal of the same digits |
| SqlLiterals.HexMeans | engine/database/dump.go:391-403 | hex digits are the ten digits and the letters to f in either case |
| SqlLiterals.PlainIsKept | engine/database/dump.go:380-390 | text without quotes and zeros is left as it is |
| Parens.MatchingParen | engine/database/dump.go:487-520 | the loop finds where the first parenthesis closes, or -1 |
| Parens.FindOpeningParen | engine/database/dump.go:462-485 | the first parenthesis outside quotes, or -1; reading a doubled quote as two sections finds the same place |
| Parens.SplitTopLevel | engine/database/dump.go:522-558 | the pieces between top-level commas, trimmed, without a blank last one |
| Parens.Lockstep | engine/database/dump.go:487-558 | inside a matched pair the two scanners are in the same quote at every position, one parenthesis apart |
| Parens.MatchedBody | engine/database/dump.go:487-558 | the body of a matched pair is balanced, its pieces are balanced and hold no top-level comma, and joined by commas they are the body |
| Parens.PiecesAreBalanced | engine/database/dump.go:522-558 | the same for any text that ends at depth zero outside quotes and never goes below |
| Parens.DefinitionsAreBalanced | engine/database/dump.go:522-558 | so every trimmed definition cut from a matched body is balanced |
| Parens.MatchIsFound | engine/database/dump.go:487-520 | in text written down from a tree of characters, quoted values and groups, the match of a group's opening parenthesis is the one that the tree puts there |
| Parens.OpeningIsFound | engine/database/dump.go:462-485 | in such text the first opening parenthesis is that of the first group, whatever the quoted values hold |
| Parens.PiecesAreFound | engine/database/dump.go:522-558 | such texts joined by commas are cut into exactly those texts, whatever commas their groups and quoted values hold |
| Migrations.Store.ApplyMigrations | engine/database/migrations.go:91-190 | sorts by version; settles a prefix in order; without an error: every migration absent from the old table is executed, and with checks on every one whose recorded hash is another and not empty, or empty without leave to rehash, unless both states are archived and archived redundancy is off; one of equal hash is not executed; a hash is replaced without executing only when it was empty and rehashing is allowed; entries, orphans and counts are spelled out; an error names the duplicate or the refused statement it stopped at |
| Migrations.RunMeans | engine/database/migrations.go:91-190 | the executed list, the final entries, the orphans deleted and the counts of a full run, all in terms of hashes, states and options |
| Migrations.DecisionMeans | engine/database/migrations.go:118-156 | the decision on one migration is exactly what hashes, states and options say |
| Migrations.CompletedMeans | engine/database/migrations.go:112-117 | defaults: released state, and the digest of the statements joined by lines |
| Migrations.JoinedByLines | engine/database/migrations.go:116 | joining concatenates with one line feed between statements |
| Migrations.RunsMeans | engine/database/migrations.go:221-229 | a migration fails exactly when a statement that is not blank is refused |
| Migrations.Store.ApplyMigration | engine/database/migrations.go:215-245 | one transaction: all statements and the entry, or nothing |
| Migrations.Store.SettleOne | engine/database/migrations.go:118-156 | the branches for one migration decide as `Decide` says, and the counters follow |
| Migrations.Store.CleanUp | engine/database/migrations.go:158-188 | deletes exactly the entries that no migration has, when switch and maximum say so |
| Migrations.SettledAll | engine/database/migrations.go:91-157 | after a run each migration's entry is its own or, if skipped, the old one; nobody else's is touched |
| Migrations.SecondRunIsIdle | engine/database/migrations.go:91-190 | whatever the options, a second run executes, rehashes and archives nothing, deletes nothing and leaves the table unchanged |
| Migrations.SecondRunDoesNotStop | engine/database/migrations.go:101-156 | and it meets no error |
| Migrations.ExecutedAreTheChanged | engine/database/migrations.go:118-156 | exactly the new or changed migrations are executed |
| Migrations.ExecutedInOrder | engine/database/migrations.go:99-157 | by strictly increasing version, so each once |
| Migrations.SortedIsUnique | engine/database/migrations.go:99 | without equal versions there is one way to sort, so a second run goes over the same list |
| Absorption.Player.ApplyAbsorptionShields | engine/world/absorption.go:44-148 | whatever order the aura map is walked in: the listed shields, the damage left and the mana are those of the sorted hit, drained shields are gone and inactive auras untouched |
| Absorption.Creature.ApplyAbsorptionShields | engine/world/absorption.go:151-205 | the same without mana; a drained shield of spell 0 stays behind, empty |
| Absorption.SortedShields | engine/world/absorption.go:54-68 | collecting in any order and sorting gives the list of the active shields by priority and spell |
| Absorption.Ask | engine/world/absorption.go:70-140 | what one shield takes and the mana it draws |
| Absorption.CostIsCovered | engine/world/absorption.go:110-128 | a mana shield never draws more than there is, so the clamp to zero is unreachable |
| Absorption.ManaPartIsTheMost | engine/world/absorption.go:110-121 | a mana shield takes the most that the damage, its amount and the mana allow |
| Absorption.LossesBalance | engine/world/absorption.go:44-148 | for any mix of shields, absorbed plus remaining is the damage, and the shields lose what is absorbed |
| Absorption.ManaIsPriced | engine/world/absorption.go:112-128 | the mana lost is the sum over mana shields of one and a half times the part taken, each rounded up |
| Absorption.AbsorbsTheOffer | engine/world/absorption.go:151-205 | without mana the absorbed damage is the smaller of the damage and the sum of the eligible shields |
| Absorption.AbsorbIsGreedy | engine/world/absorption.go:151-205 | each shield loses exactly what the eligible ones before it leave of the damage, up to its amount |
| Absorption.OnlyOnePartlyDrained | engine/world/absorption.go:178-195 | when a shield is touched every eligible one before it is drained |
| Absorption.SpecificShieldsFirst | engine/world/absorption.go:60-107 | when a shield against every school is touched, every eligible shield against particular schools and every eligible anti-magic shield is drained; and an anti-magic one is touched only after the former |
| Absorption.FreeMeans | engine/world/absorption.go:74-107 | which shields absorb without mana: those whose schools meet the hit, anti-magic ones only when it is not physical |
| Absorption.SchoolsMeet | engine/world/absorption.go:76-95 | a shield meets a hit when it names no school or shares one with it; a hit is physical when its lowest bit is set |
| Absorption.ManaIsRoundedUp | engine/world/absorption.go:112-123 | the price in mana is one and a half times the part, rounded up |
| Absorption.HitsAdd | engine/world/absorption.go:151-205 | two hits of one school leave the same shields and take the same total as one hit of their sum |
| Absorption.ManaPaysTheExcess | engine/world/absorption.go:54-140 | in the sorted list the mana shields see only the damage that the free shields leave over, whatever the mana |
| Absorption.ManaIsSpared | engine/world/absorption.go:54-140 | damage that the free shields can take costs no mana and is absorbed whole |
| Absorption.ListingIsUnique | engine/world/absorption.go:60-68 | there is one sorted list of the active shields |
| ResourceClock.Pay | engine/world/battleground_ab.go:500-516 | the loop that pays one side ends at the closed form: points for every full interval, stopped at the maximum |
| ResourceClock.Tick | engine/world/battleground_ab.go:489-535 | Alliance is paid, then Horde, unless the match is decided |
| ResourceClock.TickedIsGood | engine/world/battleground_ab.go:489-535 | the winner is always exactly the side at the maximum and never changes; nothing is overdue while a match is on |
| ResourceClock.TicksAdd | engine/world/battleground_ab.go:489-535 | when nobody wins in the first tick, two ticks equal one of their sum exactly unless Alliance wins in the second after Horde was paid in the first; winner and Alliance agree in any case |
| ResourceClock.SplitChangesWinner | engine/world/battleground_ab.go:489-535 | splitting a tick changes the winner exactly when Horde is there after the first part and Alliance only after the whole |
| ArathiBasin.Match.UseBanner | engine/world/battleground_ab.go:220-345 | any entry: an object that is no banner is not handled; a banner's use while the match is on makes or clears a claim on its node by one rule for both sides, and no other node changes |
| ArathiBasin.Match.UseNode | engine/world/battleground_ab.go:245-345 | base counts agree with the nodes in every state, a contested node was neutral or the other side's, and a side whose count changes starts its interval anew |
| ArathiBasin.BannersNameNodes | engine/world/battleground_ab.go:53-72 | a banner's entry gives its node back whatever its state, and no other entry does; the five entries of each node spelled out |
| ArathiBasin.Match.CompleteNodeCapture | engine/world/battleground_ab.go:363-402 | a capture callback for any node and side at any time makes the claimant the holder, and otherwise does nothing; credits the recorded assailant |
| ArathiBasin.Match.TickResources | engine/world/battleground_ab.go:489-535 | time moves the resources as the clock says and keeps the counts |
| ArathiBasin.Match.constructor | engine/world/battleground_ab.go:177-214 | all nodes neutral, nothing scored |
| ArathiBasin.DefenceUndoesAssault | engine/world/battleground_ab.go:294-341 | defending gives a node back as it was before the assault; an undisturbed assault ends in holding it |
| ArathiBasin.AssaultMeans | engine/world/battleground_ab.go:258-341 | on every node that can come up, a banner used by the holder leaves no claim and used by the other side leaves theirs; the holder stays |
| ArathiBasin.StandingShows | engine/world/battleground_ab.go:258-341 | a node is held or claimed by a side exactly in the state that says so, and never both by the same side |
| ArathiBasin.PaceByBases | engine/world/battleground_ab.go:88-103 | the interval and the points for each number of bases |
| ArathiBasin.HeldUpdate | engine/world/battleground_ab.go:258-341 | the count of held nodes moves with one node's change |
| EyeOfTheStorm.Match.UseGameObject | engine/world/battleground_eots.go:185-308 | any entry: what is handled, where the flag is afterwards, which towers changed, and when it is a capture; only a capture scores, by the towers held; everything else leaves resources, winner and, but for towers, the clock alone |
| EyeOfTheStorm.Match.UseBanner | engine/world/battleground_eots.go:256-307 | the carrier at a tower of the own side captures the flag for at least 75 points, capped at the maximum; anyone else takes the tower, and counts agree with towers |
| EyeOfTheStorm.Match.ClaimTower | engine/world/battleground_eots.go:278-305 | the tower becomes the side's and both counts follow |
| EyeOfTheStorm.Match.CaptureFlag | engine/world/battleground_eots.go:310-345 | the flag returns to the middle; the side scores nothing, 75, 85, 100 or 500 by the towers it holds, capped at the maximum, where it wins; the other side and the clocks stay |
| EyeOfTheStorm.BannersNameTowers | engine/world/battleground_eots.go:122-140 | a tower has exactly three banners, and no other entry names it |
| EyeOfTheStorm.PaceByTowers | engine/world/battleground_eots.go:80-86 | a second is worth 1, 2, 5 or 10 points by the towers held, and without one the clock stands still |
| EyeOfTheStorm.Match.UseCenterFlag | engine/world/battleground_eots.go:203-228 | taken up exactly when it is in the middle, in range, and the match is on |
| EyeOfTheStorm.Match.UseDroppedFlag | engine/world/battleground_eots.go:230-254 | taken up exactly when it lies on the ground and the match is on, at any distance |
| EyeOfTheStorm.Match.PlayerGone | engine/world/battleground_eots.go:363-424 | dropped exactly when the carrier dies or leaves, even after the end |
| EyeOfTheStorm.Match.ReturnFlag | engine/world/battleground_eots.go:429-445 | a return timer, however late, moves the flag exactly when it lies on the ground |
| EyeOfTheStorm.Match.TickResources | engine/world/battleground_eots.go:501-543 | time moves the resources as the clock says; flag and towers stay |
| StrandOfTheAncients.Match.TickSA | engine/world/battleground_sa.go:471-545 | after a tick every field is what the history of events says it is; and, spelled out on the fields, warmup ends after two minutes, a round after ten or, the second, at the first round's time, and the pause after one |
| StrandOfTheAncients.Match.DamageGate | engine/world/battleground_sa.go:421-467 | the same after damage: a gate's health and state follow from the damage aimed at it in this round; spelled out, a standing gate loses the damage down to 0, shows damage from 50000 down, and nothing else changes |
| StrandOfTheAncients.Match.UseGameObject | engine/world/battleground_sa.go:283-345 | the same after a use: a graveyard is the attackers' exactly if they used its flag after a gate before it fell, and the relic ends a round exactly if the last two gates fell; spelled out by object entries, with nothing else changed |
| StrandOfTheAncients.Match.ActivateTitanRelic | engine/world/battleground_sa.go:377-410 | taking the relic records side and time; the first round ends with sides swapped and everything reset, the second with the smaller time winning, and equal times a draw |
| StrandOfTheAncients.Match.DecideByTime | engine/world/battleground_sa.go:401-408 | the side with the strictly smaller time wins, equal times draw |
| StrandOfTheAncients.Match.ResetObjects | engine/world/battleground_sa.go:229-243 | all gates whole, the beach the attackers', everything else the defenders' |
| StrandOfTheAncients.Match.constructor | engine/world/battleground_sa.go:195-225 | a new match shows the empty history |
| StrandOfTheAncients.WhoWins | engine/world/battleground_sa.go:377-545 | the verdict told by what happened: draw if and only if both defences held or both attacks took no time; Alliance, attacking first, if and only if it alone succeeds; Horde if and only if it succeeds in less time or alone |
| StrandOfTheAncients.RunningIsInTime | engine/world/battleground_sa.go:501-545 | a running phase is below its limit, or at zero |
| StrandOfTheAncients.HistoryIsUnique | engine/world/battleground_sa.go:471-545 | how far a match has come and where its phases ended is fixed by the events alone |
| StrandOfTheAncients.GateBands | engine/world/battleground_sa.go:440-466 | a gate's state always matches its health band |
| StrandOfTheAncients.HeldGraveyardIsOpen | engine/world/battleground_sa.go:257-279 | a capturable graveyard in the attackers' hands means that a gate before it was destroyed in this round |
| Channels.Server.JoinChannel | engine/world/channels.go:43-130 | who is admitted, and which notice each refusal gets; a ban is met by `Banned` at every join past the name, place and password checks; a refused join changes nothing and leaves no channel behind; both sides of the index gain the member |
| Channels.Server.LeaveChannel | engine/world/channels.go:134-190 | leaves the named channel, or one of that number exactly when the name is unknown and there is one; an emptied channel goes |
| Channels.Server.SetMode | engine/world/channels.go:651-714 | mutes and moderators change as asked except that the owner is moderator for good and only the owner mutes the owner; who is told what |
| Channels.Server.KickOrBan | engine/world/channels.go:820-875 | a permitted kick or ban leaves exactly the target off the channel, on both sides of the index, and a ban leaves the target's id among the banned; only the owner can take the owner off |
| Channels.Server.SetOwner | engine/world/channels.go:571-615 | the new owner is a member and becomes a moderator |
| Channels.Server.Unban | engine/world/channels.go:891-936 | lifts exactly one ban, or says why not |
| Channels.Server.SetPassword | engine/world/channels.go:543-565 | only a moderator on the channel changes the password |
| Channels.Server.ToggleAnnouncements | engine/world/channels.go:940-976 | only a moderator on the channel toggles announcements |
| Channels.Server.RemoveSessionChannels | engine/world/channels.go:338-371 | a session that disconnects is on no channel, and nobody else's membership changes |
| Channels.Server.UpdateLocalChannels | engine/world/channels.go:381-413 | outside cities the session leaves exactly its city channels and nothing else about any channel changes |
| Channels.Server.FindMemberByName | engine/world/channels.go:485-495 | a member of that name, if there is one |
| Channels.ModeSetIsSafe | engine/world/channels.go:651-714 | no mode change unseats the owner as moderator or lets another mute the owner |
| Channels.RemovalIsSane | engine/world/channels.go:820-875 | a removal leaves no banned member and shields the owner from others |
| Channels.RemovalTakesEffect | engine/world/channels.go:820-875 | a permitted removal takes exactly the target off and bans exactly when asked to; nothing else about the channel changes |
| Channels.ModeTakesEffect | engine/world/channels.go:651-714 | a mode change sets or clears exactly the flag it names, unless the owner is shielded from it |
| Channels.RefusalMeans | engine/world/channels.go:820-840 | a command goes ahead exactly for a moderator who is on the channel; who else gets which refusal |
| Channels.DepartedMeans | engine/world/channels.go:338-371 | a departure takes exactly the one session off exactly the named channels, and a channel goes exactly when that empties it |
| Channels.ZoneIsCut | engine/world/channels.go:318-326 | a channel name is cut at the first spaced dash |
| Channels.BlanksGoApart | engine/world/channels.go:327 | and its blanks are dropped, wherever they stand |
| Channels.DepartedIsSafe | engine/world/channels.go:338-371 | leaving keeps every channel orderly and moves nobody else |

## Left out

- Packet building, broadcasts, logging, configuration, DBC loading, the Lua API and the statement table.
- Hash functions, RC4, AES-GCM and Argon2: hashes are arbitrary functions of the right length.
- Concurrency outside the worker pool: every other operation is one step under its lock.
- Achievements: dates, the index loader, the side conditions' own tests (a parameter), and persistence. Criterion ids
  are assumed unique.
- Auction house: item rows and inventory, mail texts and delivery times, and the vendor price behind a deposit, whose
  floating-point product is a parameter.
- AuctionHouse.AuctionServer.SellItem: does not model that a listed item must be in the seller's inventory, because the source only checks the owner column.
- EventQueue.EventQueue.Add: does not model the wrap of the 64-bit id counter, because no run reaches it.
- EventQueue.EventQueue.RunDue: returns the fired events instead of calling them; callbacks run after the queue is left.
- Hooks.Dispatcher.Trigger: collects no return values, and takes one flag for whether the arguments can be pushed, because pushing is a library call.
- `Runtime.Tick` with callbacks that add or remove timers.
- WorkerPool.NeverStuck: assumes that a task that was started ends; nil tasks, which Submit refuses, are not submitted.
- SqlSplit.SplitSQL: reads characters where the source reads bytes, so text that is not valid UTF-8 is not covered.
- SqlLiterals.MeaningKept: reads backslash escapes by the source's own table, because nothing else in the repository says what they mean; MySQL itself reads a backslash before b, Z, % or _ otherwise.
- LoadMigrations, which reads files, and the creation of the metadata table.
- The rest of the dump translation: the regular expressions, the table, index and view rewriters.
- Migrations.Store.ApplyMigrations: does not model that the caller's slice is left sorted with its defaults filled in, nor failures of the database itself; the statements it refuses are a parameter.
- Absorption.Player.ApplyAbsorptionShields: requires damage of at most 2863311530, because above it the price in mana does not fit 32 bits and the conversion is not defined.
- Removing an exhausted aura's icon, diminishing returns and timers.
- Arathi Basin and Eye of the Storm: banner objects, world states, map coordinates (a range test is a parameter), and negative elapsed times.
- Eye of the Storm's respawn timer, which only shows or hides an object.
- StrandOfTheAncients.Match.DamageGate: does not count the gates a player destroyed, because nothing but the score board reads it; demolishers are left out for the same reason.
- Warsong Gulch, Alterac Valley, Isle of Conquest, Wintergrasp and arenas.
- Channels: invitations, lists, voice and member flags, and whether a session has a player loaded.
- Channels.Server.JoinChannel: takes the library's trimming and case folding as an arbitrary function.
- Channels.Server.Unban: takes the character id that the database finds for a name as a parameter.
- Explored-zones masks, whose writer and reader disagree on the number of digits.
