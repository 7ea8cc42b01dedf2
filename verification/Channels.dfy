/** Chat channels: who is on which, and what owners and moderators may do to whom. */
module Channels {
  import opened Wrappers

  /** A player's connection. Names are compared without case, so they are kept folded. */
  class Session {
    const guid: nat
    const name: string
    var channels: set<string>

    constructor (guid: nat, name: string)
      ensures this.guid == guid && this.name == name && channels == {}
    {
      this.guid := guid;
      this.name := name;
      channels := {};
    }
  }

  datatype Channel = Channel(id: nat, name: string, city: bool, password: string, owner: nat, announce: bool,
                             members: set<Session>, moderators: set<nat>, muted: set<nat>, banned: set<nat>)

  /** What the sender of a command is told. */
  datatype Notice = Silent | InvalidName | NotInArea | WrongPassword | Banned | AlreadyMember | YouJoined | NotMember
                  | YouLeft | NotModerator | PlayerNotFound | NotOwner | NotBanned | PasswordChanged | OwnerChanged
                  | ModeChanged
                  | PlayerKicked | PlayerBanned | PlayerUnbanned | AnnouncementsOn | AnnouncementsOff

  // ---------- Names ----------

  /** The part of a name before the separator of its zone. */
  function BeforeZone(s: string): string
  {
    if s == "" || (|s| >= 3 && s[..3] == " - ") then "" else [s[0]] + BeforeZone(s[1..])
  }

  function WithoutBlanks(s: string): string
  {
    if s == "" then "" else (if s[0] == ' ' then "" else [s[0]]) + WithoutBlanks(s[1..])
  }

  predicate SeparatorAt(s: string, k: nat)
  {
    k + 3 <= |s| && s[k] == ' ' && s[k + 1] == '-' && s[k + 2] == ' '
  }

  /** The zone part is cut at the first separator. */
  lemma {:induction false} ZoneIsCut(s: string)
    ensures var n := |BeforeZone(s)|;
            && n <= |s| && BeforeZone(s) == s[..n] && (n == |s| || SeparatorAt(s, n))
            && forall k :: 0 <= k < n ==> !SeparatorAt(s, k)
  {
    SeparatorAtFront(s);
    if s != "" && !SeparatorAt(s, 0) {
      ZoneIsCut(s[1..]);
      assert forall k :: 0 < k < |s| ==> (SeparatorAt(s, k) <==> SeparatorAt(s[1..], k - 1));
    }
  }

  lemma SeparatorAtFront(s: string)
    ensures |s| >= 3 && s[..3] == " - " <==> SeparatorAt(s, 0)
  {
    if |s| >= 3 {
      assert s[..3] == [s[0], s[1], s[2]];
    }
  }

  lemma {:induction false} BlanksGo(a: string)
    ensures ' ' !in WithoutBlanks(a) && (' ' !in a ==> WithoutBlanks(a) == a)
  {
    if a != "" {
      BlanksGo(a[1..]);
      assert a == [a[0]] + a[1..];
    }
  }

  lemma {:induction false} BlanksGoApart(a: string, b: string)
    ensures WithoutBlanks(a + b) == WithoutBlanks(a) + WithoutBlanks(b) &&
            WithoutBlanks(a + " " + b) == WithoutBlanks(a + b)
  {
    if a == "" {
      assert a + b == b && a + " " + b == " " + b && (" " + b)[1..] == b;
      assert "" + WithoutBlanks(b) == WithoutBlanks(b);
    } else {
      assert (a + b)[1..] == a[1..] + b && (a + " " + b)[1..] == a[1..] + " " + b;
      BlanksGoApart(a[1..], b);
    }
  }

  predicate GoodName(name: string)
  {
    name != "" && !('0' <= name[0] <= '9')
  }

  // ---------- One channel ----------

  /** The owner is a moderator, and nobody on the channel is banned from it. */
  ghost predicate Orderly(c: Channel)
  {
    c.owner in c.moderators && forall m :: m in c.members ==> m.guid !in c.banned
  }

  /** The owner's standing, as another may not lower it. */
  ghost predicate Shields(before: Channel, after: Channel, actor: nat)
  {
    var o := before.owner;
    o != actor ==>
      (o in before.moderators ==> o in after.moderators) && (o in after.muted <==> o in before.muted) &&
      (o in after.banned ==> o in before.banned) &&
      (forall m :: m in before.members && m.guid == o ==> m in after.members)
  }

  /** The owner's moderator flag cannot be changed at all, and the owner can be muted only by the owner. */
  function ModeSet(c: Channel, actor: nat, target: nat, moderator: bool, value: bool): Channel
  {
    if target == c.owner && (moderator || actor != c.owner) then c
    else if moderator then c.(moderators := if value then c.moderators + {target} else c.moderators - {target})
    else c.(muted := if value then c.muted + {target} else c.muted - {target})
  }

  /** Only the owner can take the owner off the channel. */
  function Removed(c: Channel, actor: nat, target: Session, ban: bool): Channel
  {
    if target.guid == c.owner && actor != c.owner then c
    else c.(members := c.members - {target}, banned := if ban then c.banned + {target.guid} else c.banned)
  }

  /** A permitted removal takes exactly the target off, and a ban puts exactly the target's id among the banned. */
  lemma RemovalTakesEffect(c: Channel, actor: nat, target: Session, ban: bool)
    requires target.guid != c.owner || actor == c.owner
    ensures var after := Removed(c, actor, target, ban);
            && (forall o :: o in after.members <==> o in c.members && o != target)
            && (forall g :: g in after.banned <==> g in c.banned || (ban && g == target.guid))
            && after == c.(members := after.members, banned := after.banned)
  {
  }

  /** A mode change sets or clears exactly the flag that it names, unless the owner is shielded from it. */
  lemma ModeTakesEffect(c: Channel, actor: nat, target: nat, moderator: bool, value: bool)
    ensures var after := ModeSet(c, actor, target, moderator, value);
            var shielded := target == c.owner && (moderator || actor != c.owner);
            && (forall g :: g in after.moderators <==>
                  if moderator && g == target && !shielded then value else g in c.moderators)
            && (forall g :: g in after.muted <==> if !moderator && g == target && !shielded then value
                                                  else g in c.muted)
            && after == c.(moderators := after.moderators, muted := after.muted)
  {
  }

  lemma ModeSetIsSafe(c: Channel, actor: nat, target: nat, moderator: bool, value: bool)
    requires Orderly(c)
    ensures Orderly(ModeSet(c, actor, target, moderator, value)) &&
            Shields(c, ModeSet(c, actor, target, moderator, value), actor)
  {
  }

  // ---------- The table ----------

  /** `s` is taken off the channels in `keys`; a channel that this empties goes. */
  function Departed(t: map<string, Channel>, s: Session, keys: set<string>): map<string, Channel>
  {
    map key | key in t && !(key in keys && t[key].members == {s}) ::
      if key in keys then t[key].(members := t[key].members - {s}) else t[key]
  }

  ghost predicate ShieldsAll(before: map<string, Channel>, after: map<string, Channel>, actor: nat)
  {
    forall key :: key in before && key in after ==> Shields(before[key], after[key], actor)
  }

  ghost predicate Unique(sessions: set<Session>)
  {
    forall a, b :: a in sessions && b in sessions && (a.guid == b.guid || a.name == b.name) ==> a == b
  }

  ghost predicate Sane(c: Channel, sessions: set<Session>)
  {
    Orderly(c) && c.members <= sessions
  }

  ghost predicate GoodTable(t: map<string, Channel>, sessions: set<Session>)
  {
    forall key :: key in t ==> Sane(t[key], sessions)
  }

  predicate OnChannel(t: map<string, Channel>, key: string, s: Session)
  {
    key in t && s in t[key].members
  }

  /** Both sides say the same about who is where. */
  ghost predicate Indexed(t: map<string, Channel>, sessions: set<Session>)
    reads sessions
  {
    forall s, key :: s in sessions ==> (key in s.channels <==> OnChannel(t, key, s))
  }

  /** What a moderator's command meets before its own conditions. */
  function Refusal(t: map<string, Channel>, key: string, s: Session): Notice
  {
    if key !in t then Silent
    else if s !in t[key].members then NotMember
    else if s.guid !in t[key].moderators then NotModerator
    else ModeChanged
  }

  /** A command goes ahead exactly for a moderator who is on the channel; anyone else is told why not. */
  lemma RefusalMeans(t: map<string, Channel>, key: string, s: Session)
    ensures Refusal(t, key, s) == ModeChanged <==> key in t && s in t[key].members && s.guid in t[key].moderators
    ensures Refusal(t, key, s) == NotModerator <==> key in t && s in t[key].members && s.guid !in t[key].moderators
    ensures Refusal(t, key, s) == NotMember <==> key in t && s !in t[key].members
    ensures Refusal(t, key, s) == Silent <==> key !in t
  {
  }

  /** Who is left after departures. */
  lemma DepartedMeans(t: map<string, Channel>, s: Session, keys: set<string>)
    ensures var after := Departed(t, s, keys);
            && (forall key :: key in after <==> key in t && !(key in keys && t[key].members == {s}))
            && (forall key :: key in after ==>
                  after[key] == if key in keys then t[key].(members := t[key].members - {s}) else t[key])
  {
  }

  lemma DepartedIsSafe(t: map<string, Channel>, s: Session, keys: set<string>, sessions: set<Session>)
    requires GoodTable(t, sessions)
    ensures GoodTable(Departed(t, s, keys), sessions)
    ensures ShieldsAll(t, Departed(t, s, keys), s.guid)
    ensures forall key, o :: OnChannel(Departed(t, s, keys), key, o) <==>
              OnChannel(t, key, o) && !(o == s && key in keys)
  {
  }

  lemma NothingChanged(t: map<string, Channel>, actor: nat)
    ensures ShieldsAll(t, t, actor)
  {
  }

  lemma SameGuid(sessions: set<Session>, a: Session, b: Session)
    requires Unique(sessions) && a in sessions && b in sessions
    ensures a.guid == b.guid <==> a == b
  {
  }

  lemma RemovalIsSane(t: map<string, Channel>, key: string, sessions: set<Session>, actor: nat, target: Session,
                      ban: bool)
    requires Unique(sessions) && GoodTable(t, sessions) && key in t && target in t[key].members
    ensures target in sessions
    ensures Sane(Removed(t[key], actor, target, ban), sessions) &&
            Shields(t[key], Removed(t[key], actor, target, ban), actor)
  {
  }

  /** Leaving channels one after the other is leaving them all. */
  lemma DepartedAgain(t: map<string, Channel>, s: Session, keys: set<string>, key: string)
    ensures Departed(Departed(t, s, keys), s, {key}) == Departed(t, s, keys + {key})
  {
    var once, both := Departed(t, s, keys), Departed(t, s, keys + {key});
    var twice := Departed(once, s, {key});
    forall k ensures k in twice <==> k in both {
      if k in once {
        assert s !in once[k].members || k !in keys;
      }
    }
    forall k | k in twice ensures twice[k] == both[k] {
      assert t[k].members - {s} - {s} == t[k].members - {s};
    }
  }

  lemma Replaced(t: map<string, Channel>, key: string, c: Channel, sessions: set<Session>, actor: nat)
    requires GoodTable(t, sessions) && Sane(c, sessions) && (key in t ==> Shields(t[key], c, actor))
    ensures GoodTable(t[key := c], sessions) && ShieldsAll(t, t[key := c], actor)
    ensures forall k, o :: OnChannel(t[key := c], k, o) == if k == key then o in c.members else OnChannel(t, k, o)
  {
    forall k, o ensures OnChannel(t[key := c], k, o) == if k == key then o in c.members else OnChannel(t, k, o) {
    }
  }

  /** A session that is not banned from a channel, found or just founded, may be put on it. */
  lemma JoinIsSafe(t: map<string, Channel>, key: string, c: Channel, s: Session, sessions: set<Session>)
    requires GoodTable(t, sessions) && s in sessions && s.guid !in c.banned
    requires if key in t then c == t[key] else c.owner in c.moderators && c.members == {}
    ensures var joined := c.(members := c.members + {s});
            && GoodTable(t[key := joined], sessions) && ShieldsAll(t, t[key := joined], s.guid)
            && forall k, o ::
                 OnChannel(t[key := joined], k, o) == if k == key then o in joined.members else OnChannel(t, k, o)
  {
    if key in t {
      assert Sane(t[key], sessions);
    }
    Replaced(t, key, c.(members := c.members + {s}), sessions, s.guid);
  }

  predicate Opens(c: Channel, password: string)
  {
    c.password == "" || c.password == password
  }

  class Server {
    var channels: map<string, Channel>
    /** What the library makes of a name by trimming it and lowering its case. */
    const fold: string -> string
    /** The sessions that are connected. */
    ghost var sessions: set<Session>

    /** GUIDs and names are unique; the two sides of the index agree; every channel is orderly. */
    ghost predicate Valid()
      reads this, sessions
    {
      Unique(sessions) && GoodTable(channels, sessions) && Indexed(channels, sessions)
    }

    constructor (fold: string -> string)
      ensures Valid() && channels == map[] && sessions == {} && this.fold == fold
    {
      this.fold := fold;
      channels := map[];
      sessions := {};
    }

    function Key(name: string): string
    {
      fold(name)
    }

    /** Trade and guild recruitment are for cities only; a custom channel never is. */
    predicate IsCityChannel(id: nat, name: string)
    {
      id != 0 && WithoutBlanks(BeforeZone(Key(name))) in ["trade", "guildrecruitment"]
    }

    /** The channel that a join finds or founds; the founder owns it. */
    function FoundOrFounded(t: map<string, Channel>, id: nat, name: string, founder: nat): Channel
    {
      var key := Key(name);
      if key in t then t[key] else Channel(id, name, IsCityChannel(id, name), "", founder, true, {}, {founder}, {}, {})
    }

    method Connect(guid: nat, name: string) returns (s: Session)
      requires Valid() && forall o :: o in sessions ==> o.guid != guid && o.name != name
      modifies this`sessions
      ensures fresh(s) && s.guid == guid && s.name == name && sessions == old(sessions) + {s} && Valid()
    {
      s := new Session(guid, name);
      assert forall key :: key in channels ==> Sane(channels[key], sessions);
      sessions := sessions + {s};
    }

    /** A join that is refused changes nothing, and leaves no channel behind. */
    method JoinChannel(s: Session, id: nat, name: string, password: string, inCity: bool) returns (notice: Notice)
      requires Valid() && s in sessions
      modifies this`channels, s
      ensures Valid() && ShieldsAll(old(channels), channels, s.guid)
      ensures var c := FoundOrFounded(old(channels), id, name, s.guid);
              var short, placed := |name| <= 31 && |password| <= 31, IsCityChannel(id, name) ==> inCity;
              var good := name != "" && !('0' <= name[0] <= '9');
              match notice
              case InvalidName => !good
              case Silent => good && !short
              case NotInArea => good && short && !placed
              case WrongPassword => good && short && placed && c.password != "" && c.password != password
              case Banned => good && short && placed && Opens(c, password) && s.guid in c.banned
              case AlreadyMember =>
                good && short && placed && Opens(c, password) && s.guid !in c.banned && s in c.members
              case YouJoined =>
                good && short && placed && Opens(c, password) && s.guid !in c.banned && s !in c.members
              case _ => false
      // a ban is met at the next join that gets so far
      ensures name != "" && !('0' <= name[0] <= '9') && |name| <= 31 && |password| <= 31 ==>
                (IsCityChannel(id, name) ==> inCity) && Key(name) in old(channels) ==>
                  var c := old(channels)[Key(name)];
                  s.guid in c.banned && (c.password == "" || c.password == password) ==> notice == Banned
      ensures notice != YouJoined ==> s.channels == old(s.channels) && channels == old(channels)
      ensures notice == YouJoined ==>
                var c := FoundOrFounded(old(channels), id, name, s.guid);
                channels == old(channels)[Key(name) := c.(members := c.members + {s})] &&
                s.channels == old(s.channels) + {Key(name)}
    {
      hide IsCityChannel, Unique, Sane, Shields, ShieldsAll, GoodTable;
      NothingChanged(channels, s.guid);
      if !GoodName(name) {
        return InvalidName;
      }
      if |name| > 31 || |password| > 31 {
        return Silent;
      }
      var key := Key(name);
      if IsCityChannel(id, name) && !inCity {
        return NotInArea;
      }
      var c := FoundOrFounded(channels, id, name, s.guid);
      if c.password != "" && c.password != password {
        return WrongPassword;
      }
      if s.guid in c.banned {
        return Banned;
      }
      if s in c.members {
        return AlreadyMember;
      }
      JoinIsSafe(channels, key, c, s, sessions);
      channels := channels[key := c.(members := c.members + {s})];
      s.channels := s.channels + {key};
      return YouJoined;
    }

    /** The channel of that key or, when there is none, any one of that number. */
    method FindChannel(key: string, id: nat) returns (found: string)
      ensures found == key || (key !in channels && id != 0 && found in channels && channels[found].id == id)
      ensures key !in channels && id != 0 && (exists k :: k in channels && channels[k].id == id) ==>
                found in channels && channels[found].id == id
    {
      found := key;
      if key !in channels && id != 0 {
        var candidates := set k | k in channels && channels[k].id == id;
        if candidates != {} {
          found :| found in candidates;
        } else {
          assert forall k :: k in channels && channels[k].id == id ==> k in candidates;
        }
      }
    }

    /** Leaving by name, or, when the name is not known, from any one channel of that number. */
    method LeaveChannel(s: Session, id: nat, name: string) returns (notice: Notice, ghost from: string)
      requires Valid() && s in sessions
      modifies this`channels, s
      ensures Valid() && ShieldsAll(old(channels), channels, s.guid)
      ensures from == Key(name) ||
              (Key(name) !in old(channels) && id != 0 && from in old(channels) && old(channels)[from].id == id)
      ensures Key(name) !in old(channels) && id != 0 &&
              (exists key :: key in old(channels) && old(channels)[key].id == id) ==>
                from in old(channels) && old(channels)[from].id == id
      ensures notice == YouLeft <==> !(id == 0 && name == "") && OnChannel(old(channels), from, s)
      ensures notice == YouLeft ==>
                channels == Departed(old(channels), s, {from}) && s.channels == old(s.channels) - {from}
      ensures notice != YouLeft ==> channels == old(channels) && s.channels == old(s.channels)
    {
      hide Unique, Shields, Sane, ShieldsAll, GoodTable;
      NothingChanged(channels, s.guid);
      from := Key(name);
      if id == 0 && name == "" {
        return Silent, from;
      }
      var key := FindChannel(Key(name), id);
      from := key;
      if key !in channels || s !in channels[key].members {
        return NotMember, from;
      }
      DepartedIsSafe(channels, s, {key}, sessions);
      var members := channels[key].members - {s};
      ghost var before := channels;
      if members == {} {
        assert channels[key].members == {s};
        channels := channels - {key};
      } else {
        channels := channels[key := channels[key].(members := members)];
      }
      assert channels == Departed(before, s, {key});
      s.channels := s.channels - {key};
      return YouLeft, from;
    }

    static method FindMemberByName(c: Channel, name: string) returns (m: Option<Session>)
      ensures m.Some? ==> m.value in c.members && m.value.name == name
      ensures m.None? ==> name == "" || forall o :: o in c.members ==> o.name != name
    {
      if name == "" {
        return None;
      }
      var found := set o | o in c.members && o.name == name;
      if found == {} {
        assert forall o :: o in c.members && o.name == name ==> o in found;
        return None;
      }
      var o :| o in found;
      return Some(o);
    }

    /** Puts a changed channel back, on which the same sessions are. */
    method Store(key: string, c: Channel, ghost actor: nat)
      requires Valid() && key in channels && c.members == channels[key].members
      requires Orderly(c) && Shields(channels[key], c, actor)
      modifies this`channels
      ensures Valid() && channels == old(channels)[key := c] && ShieldsAll(old(channels), channels, actor)
    {
      hide Shields, Orderly, Unique;
      assert Sane(channels[key], sessions);
      Replaced(channels, key, c, sessions, actor);
      channels := channels[key := c];
    }

    /** Makes a member a moderator or mutes one, or takes either back. */
    method SetMode(s: Session, channel: string, name: string, moderator: bool, value: bool)
      returns (notice: Notice, ghost target: Option<Session>)
      requires Valid() && s in sessions
      modifies this`channels
      ensures Valid() && ShieldsAll(old(channels), channels, s.guid)
      ensures Refusal(old(channels), Key(channel), s) != ModeChanged ==>
                notice == Refusal(old(channels), Key(channel), s) && target == None
      ensures Refusal(old(channels), Key(channel), s) == ModeChanged && target == None ==>
                notice == PlayerNotFound &&
                (name == "" || forall o :: o in old(channels)[Key(channel)].members ==> o.name != name)
      ensures target == None ==> channels == old(channels)
      ensures target.Some? ==> OnChannel(old(channels), Key(channel), target.value) && target.value.name == name
      ensures target.Some? ==>
                var c := old(channels)[Key(channel)];
                channels == old(channels)[Key(channel) := ModeSet(c, s.guid, target.value.guid, moderator, value)]
      ensures target.Some? ==> (notice == ModeChanged <==> channels != old(channels))
      ensures target.Some? ==>
                (notice == NotOwner <==> target.value.guid == old(channels)[Key(channel)].owner && s != target.value)
    {
      var key := Key(channel);
      target := None;
      notice := Refusal(channels, key, s);
      if notice != ModeChanged {
        return;
      }
      var c := channels[key];
      if moderator && s.guid == c.owner && s.name == name {
        return Silent, Some(s);
      }
      var found := FindMemberByName(c, name);
      if found.None? {
        return PlayerNotFound, None;
      }
      target := found;
      var t := found.value;
      if c.owner == t.guid && c.owner != s.guid {
        return NotOwner, target;
      }
      var store := if moderator then c.moderators else c.muted;
      if (t.guid in store) == value {
        assert store == if value then store + {t.guid} else store - {t.guid};
        return Silent, target;
      }
      ModeSetIsSafe(c, s.guid, t.guid, moderator, value);
      if moderator {
        Store(key, c.(moderators := if value then c.moderators + {t.guid} else c.moderators - {t.guid}), s.guid);
      } else {
        Store(key, c.(muted := if value then c.muted + {t.guid} else c.muted - {t.guid}), s.guid);
      }
      return ModeChanged, target;
    }

    /** Puts a changed channel back without one member, and takes it off that member's list. */
    method Expel(key: string, c: Channel, t: Session, ghost actor: nat)
      requires Valid() && OnChannel(channels, key, t) && t in sessions && c.members == channels[key].members - {t}
      requires Sane(c, sessions) && Shields(channels[key], c, actor)
      modifies this`channels, t
      ensures Valid() && channels == old(channels)[key := c] && ShieldsAll(old(channels), channels, actor)
      ensures t.channels == old(t.channels) - {key}
    {
      hide Shields, Unique, Sane, ShieldsAll, GoodTable;
      Replaced(channels, key, c, sessions, actor);
      channels := channels[key := c];
      t.channels := t.channels - {key};
    }

    /** Takes a member off the channel; a ban keeps the member off. The channel stays in the table, even empty. */
    method KickOrBan(s: Session, channel: string, name: string, ban: bool)
      returns (notice: Notice, ghost target: Option<Session>)
      requires Valid() && s in sessions
      modifies this`channels, sessions
      ensures Valid() && ShieldsAll(old(channels), channels, s.guid)
      ensures Refusal(old(channels), Key(channel), s) != ModeChanged ==>
                notice == Refusal(old(channels), Key(channel), s) && target == None
      ensures Refusal(old(channels), Key(channel), s) == ModeChanged && target == None ==>
                notice == PlayerNotFound &&
                (name == "" || forall o :: o in old(channels)[Key(channel)].members ==> o.name != name)
      ensures target == None ==> channels == old(channels)
      ensures target.Some? ==> OnChannel(old(channels), Key(channel), target.value) && target.value.name == name
      ensures target.Some? ==>
                channels == old(channels)[Key(channel) := Removed(old(channels)[Key(channel)], s.guid, target.value,
                                                                  ban)]
      ensures target.Some? ==>
                (notice == NotOwner <==> target.value.guid == old(channels)[Key(channel)].owner && s != target.value)
      ensures target.Some? && notice != NotOwner ==> notice == if ban then PlayerBanned else PlayerKicked
      // a permitted removal leaves exactly the target off the channel, and a ban stays on it
      ensures notice == PlayerBanned || notice == PlayerKicked ==>
                target.Some? && !OnChannel(channels, Key(channel), target.value) &&
                Key(channel) !in target.value.channels
      ensures notice == PlayerBanned ==> Key(channel) in channels && target.value.guid in channels[Key(channel)].banned
      ensures forall key, o :: OnChannel(channels, key, o) <==>
                OnChannel(old(channels), key, o) &&
                !(key == Key(channel) && Some(o) == target && (notice == PlayerBanned || notice == PlayerKicked))
      ensures sessions == old(sessions) && forall o :: o in sessions && Some(o) != target ==>
                o.channels == old(o.channels)
    {
      var key := Key(channel);
      hide Shields, Unique, Sane, ShieldsAll, GoodTable;
      NothingChanged(channels, s.guid);
      target := None;
      notice := Refusal(channels, key, s);
      if notice != ModeChanged {
        return;
      }
      var c := channels[key];
      var found := FindMemberByName(c, name);
      if found.None? {
        return PlayerNotFound, None;
      }
      target := found;
      var t := found.value;
      RemovalIsSane(channels, key, sessions, s.guid, t, ban);
      SameGuid(sessions, s, t);
      if c.owner == t.guid && c.owner != s.guid {
        return NotOwner, target;
      }
      var after := c.(members := c.members - {t}, banned := if ban then c.banned + {t.guid} else c.banned);
      Expel(key, after, t, s.guid);
      return if ban then PlayerBanned else PlayerKicked, target;
    }

    /** Any moderator can hand the channel to another member, who becomes a moderator. */
    method SetOwner(s: Session, channel: string, name: string) returns (notice: Notice, ghost target: Option<Session>)
      requires Valid() && s in sessions
      modifies this`channels
      ensures Valid() && ShieldsAll(old(channels), channels, s.guid)
      ensures Refusal(old(channels), Key(channel), s) != ModeChanged ==>
                notice == Refusal(old(channels), Key(channel), s) && target == None
      ensures Refusal(old(channels), Key(channel), s) == ModeChanged && target == None ==>
                notice == PlayerNotFound &&
                (name == "" || forall o :: o in old(channels)[Key(channel)].members ==> o.name != name)
      ensures target == None || target == Some(s) ==> channels == old(channels)
      ensures target.Some? ==> OnChannel(old(channels), Key(channel), target.value) && target.value.name == name
      ensures target.Some? && target != Some(s) ==>
                var c := old(channels)[Key(channel)];
                notice == OwnerChanged &&
                channels == old(channels)[Key(channel) := c.(owner := target.value.guid,
                                                             moderators := c.moderators + {target.value.guid})]
    {
      var key := Key(channel);
      target := None;
      notice := Refusal(channels, key, s);
      if notice != ModeChanged {
        return;
      }
      var c := channels[key];
      var found := FindMemberByName(c, name);
      if found.None? {
        return PlayerNotFound, None;
      }
      target := found;
      if found.value == s {
        return Silent, target;
      }
      assert Sane(c, sessions);
      Store(key, c.(owner := found.value.guid, moderators := c.moderators + {found.value.guid}), s.guid);
      return OwnerChanged, target;
    }

    /** Lifts a ban. The name was looked up among all characters; 0 stands for no such character. */
    method Unban(s: Session, channel: string, guid: nat) returns (notice: Notice)
      requires Valid() && s in sessions
      modifies this`channels
      ensures Valid() && ShieldsAll(old(channels), channels, s.guid)
      ensures Refusal(old(channels), Key(channel), s) != ModeChanged ==>
                notice == Refusal(old(channels), Key(channel), s)
      ensures Refusal(old(channels), Key(channel), s) == ModeChanged ==>
                var c := old(channels)[Key(channel)];
                notice == if guid == 0 then PlayerNotFound else if guid in c.banned then PlayerUnbanned else NotBanned
      ensures notice == PlayerUnbanned ==>
                Key(channel) in old(channels) &&
                var c := old(channels)[Key(channel)];
                channels == old(channels)[Key(channel) := c.(banned := c.banned - {guid})]
      ensures notice != PlayerUnbanned ==> channels == old(channels)
    {
      var key := Key(channel);
      notice := Refusal(channels, key, s);
      if notice != ModeChanged {
        return;
      }
      var c := channels[key];
      if guid == 0 {
        return PlayerNotFound;
      }
      if guid !in c.banned {
        return NotBanned;
      }
      assert Sane(c, sessions);
      Store(key, c.(banned := c.banned - {guid}), s.guid);
      return PlayerUnbanned;
    }

    method SetPassword(s: Session, channel: string, password: string) returns (notice: Notice)
      requires Valid() && s in sessions
      modifies this`channels
      ensures Valid() && ShieldsAll(old(channels), channels, s.guid)
      ensures notice == PasswordChanged <==> Refusal(old(channels), Key(channel), s) == ModeChanged
      ensures notice == PasswordChanged ==>
                Key(channel) in old(channels) &&
                channels == old(channels)[Key(channel) := old(channels)[Key(channel)].(password := password)]
      ensures notice != PasswordChanged ==> notice == Silent && channels == old(channels)
    {
      var key := Key(channel);
      if Refusal(channels, key, s) != ModeChanged {
        return Silent;
      }
      assert Sane(channels[key], sessions);
      Store(key, channels[key].(password := password), s.guid);
      return PasswordChanged;
    }

    method ToggleAnnouncements(s: Session, channel: string) returns (notice: Notice)
      requires Valid() && s in sessions
      modifies this`channels
      ensures Valid() && ShieldsAll(old(channels), channels, s.guid)
      ensures Refusal(old(channels), Key(channel), s) != ModeChanged ==>
                notice == Refusal(old(channels), Key(channel), s) && channels == old(channels)
      ensures Refusal(old(channels), Key(channel), s) == ModeChanged ==>
                var c := old(channels)[Key(channel)];
                channels == old(channels)[Key(channel) := c.(announce := !c.announce)] &&
                notice == if c.announce then AnnouncementsOff else AnnouncementsOn
    {
      var key := Key(channel);
      notice := Refusal(channels, key, s);
      if notice != ModeChanged {
        return;
      }
      var c := channels[key];
      assert Sane(c, sessions);
      Store(key, c.(announce := !c.announce), s.guid);
      return if c.announce then AnnouncementsOff else AnnouncementsOn;
    }

    /** The loop both departures share: `s` leaves the channels in `keys` one by one. */
    method LeaveAll(s: Session, keys: set<string>)
      requires GoodTable(channels, sessions)
      requires forall key :: key in keys ==> key in channels && s in channels[key].members
      modifies this`channels
      ensures channels == Departed(old(channels), s, keys)
    {
      hide Sane;
      var todo := keys;
      ghost var before, done := channels, {};
      assert channels == Departed(before, s, {});
      while todo != {}
        invariant todo + done == keys && todo !! done && channels == Departed(before, s, done)
        decreases todo
      {
        var key :| key in todo;
        todo := todo - {key};
        DepartedAgain(before, s, done, key);
        ghost var now := channels;
        assert key in channels && s in channels[key].members;
        var members := channels[key].members - {s};
        if members == {} {
          assert channels[key].members == {s};
          channels := channels - {key};
        } else {
          channels := channels[key := channels[key].(members := members)];
        }
        assert channels == Departed(now, s, {key});
        done := done + {key};
      }
      assert done == keys;
    }

    /** A session that disconnects leaves every channel it is on. */
    method RemoveSessionChannels(s: Session)
      requires Valid() && s in sessions
      modifies this, s
      ensures Valid() && sessions == old(sessions) - {s} && s.channels == {}
      ensures channels == Departed(old(channels), s, old(s.channels)) && ShieldsAll(old(channels), channels, s.guid)
      ensures forall key, o :: OnChannel(channels, key, o) <==> OnChannel(old(channels), key, o) && o != s
    {
      var keys := set key | key in channels && s in channels[key].members;
      assert keys == s.channels;
      DepartedIsSafe(channels, s, keys, sessions);
      LeaveAll(s, keys);
      s.channels := {};
      sessions := sessions - {s};
      assert forall key :: key in channels ==> Sane(channels[key], sessions);
    }

    /** A player who leaves a city leaves its channels. */
    method UpdateLocalChannels(s: Session, inCity: bool)
      requires Valid() && s in sessions
      modifies this`channels, s
      ensures Valid() && ShieldsAll(old(channels), channels, s.guid)
      ensures inCity ==> channels == old(channels) && s.channels == old(s.channels)
      ensures !inCity ==>
                var keys := set key | key in old(s.channels) && old(channels)[key].city;
                channels == Departed(old(channels), s, keys) && s.channels == old(s.channels) - keys
      ensures !inCity ==> forall key, o :: OnChannel(channels, key, o) <==>
                OnChannel(old(channels), key, o) && !(o == s && old(channels)[key].city)
    {
      if inCity {
        return;
      }
      var keys := set key | key in s.channels && key in channels && channels[key].city;
      DepartedIsSafe(channels, s, keys, sessions);
      LeaveAll(s, keys);
      s.channels := s.channels - keys;
    }
  }
}
