/** The self-only ownership check of main.py: is a pinned message held by
    exactly one human through its marker reaction, and is that human U? */
module SelfOnly {
  import opened Platform
  import opened Seqs

  /** `i` is the position of the first reaction whose emoji is the marker. */
  ghost predicate FirstMarkerAt(rs: seq<Reaction>, i: int)
  {
    && 0 <= i < |rs|
    && rs[i].emoji == PinEmoji
    && forall j :: 0 <= j < i ==> rs[j].emoji != PinEmoji
  }

  /** The position of the first marker reaction, if there is one. */
  function FirstPinReaction(rs: seq<Reaction>): (r: Option<nat>)
    ensures r.Some? ==> FirstMarkerAt(rs, r.value)
    ensures r.None? ==> forall j :: 0 <= j < |rs| ==> rs[j].emoji != PinEmoji
  {
    if rs == [] then None
    else if rs[0].emoji == PinEmoji then Some(0)
    else match FirstPinReaction(rs[1..])
      case None => None
      case Some(k) => Some(k + 1)
  }

  /** At most one position is the first marker, so the search finds it. */
  lemma FirstPinReactionFinds(rs: seq<Reaction>, i: int)
    requires FirstMarkerAt(rs, i)
    ensures FirstPinReaction(rs) == Some(i)
  {
    var r := FirstPinReaction(rs);
    assert r.Some?;
    assert !(r.value < i) && !(i < r.value);
  }

  predicate IsHuman(r: Reactor)
  {
    !r.isBot
  }

  /** The reactors that are not automated accounts, in enumeration order. */
  function Humans(users: seq<Reactor>): seq<Reactor>
  {
    Keep(users, IsHuman)
  }

  /** One more user adds itself to the humans exactly when it is one. */
  lemma HumansStep(users: seq<Reactor>, k: nat)
    requires k < |users|
    ensures Humans(users[..k + 1]) == Humans(users[..k]) + (if IsHuman(users[k]) then [users[k]] else [])
  {
    assert users[..k + 1] == users[..k] + [users[k]];
    KeepAppend(users[..k], [users[k]], IsHuman);
    assert [users[k]][1..] == [];
  }

  /** Exactly one reactor is a human, and it is `u`: the others are bots. */
  ghost predicate SoleHuman(users: seq<Reactor>, u: UserId)
  {
    exists k :: 0 <= k < |users| && !users[k].isBot && users[k].id == u
      && forall j :: 0 <= j < |users| && j != k ==> users[j].isBot
  }

  /** The outcome of the self-only check: its answer, or the error that
      enumerating the marker's users raised (`denied` for a permission
      error), which propagates to the caller. */
  datatype Check = Answer(selfOnly: bool) | Raised(denied: bool)

  /** What check_is_self_only_pin comes to for message `m` and user `u`. An
      error is raised only by enumerating the first marker reaction's users,
      and it is that enumeration's error. */
  function SelfOnlyResult(m: Message, u: UserId): (r: Check)
    ensures r.Raised? <==>
      exists i :: FirstMarkerAt(m.reactions, i) && m.reactions[i].users.EnumerationFailed?
    ensures r.Raised? ==>
      exists i :: FirstMarkerAt(m.reactions, i) && m.reactions[i].users == EnumerationFailed(r.denied)
  {
    match FirstPinReaction(m.reactions)
    case None => Answer(false)
    case Some(i) =>
      match m.reactions[i].users
      case EnumerationFailed(denied) => Raised(denied)
      case Users(list) =>
        var humans := Humans(list);
        Answer(|humans| == 1 && humans[0].id == u)
  }

  predicate IsSelfOnly(m: Message, u: UserId)
  {
    SelfOnlyResult(m, u) == Answer(true)
  }

  /** A bot at the head of the users changes neither the human list nor who
      is the sole human. */
  lemma SoleHumanBotHead(users: seq<Reactor>, u: UserId)
    requires users != [] && users[0].isBot
    ensures Humans(users) == Humans(users[1..])
    ensures SoleHuman(users, u) <==> SoleHuman(users[1..], u)
  {
    if SoleHuman(users[1..], u) {
      SoleHumanConsBot(users, u);
    }
    if SoleHuman(users, u) {
      SoleHumanTailOfBot(users, u);
    }
  }

  lemma SoleHumanConsBot(users: seq<Reactor>, u: UserId)
    requires users != [] && users[0].isBot && SoleHuman(users[1..], u)
    ensures SoleHuman(users, u)
  {
    var t := users[1..];
    var k :| 0 <= k < |t| && !t[k].isBot && t[k].id == u
      && forall j :: 0 <= j < |t| && j != k ==> t[j].isBot;
    assert users[k + 1] == t[k];
    forall j | 0 < j < |users| && j != k + 1 ensures users[j].isBot {
      assert users[j] == t[j - 1];
    }
  }

  lemma SoleHumanTailOfBot(users: seq<Reactor>, u: UserId)
    requires users != [] && users[0].isBot && SoleHuman(users, u)
    ensures SoleHuman(users[1..], u)
  {
    var t := users[1..];
    var k :| 0 <= k < |users| && !users[k].isBot && users[k].id == u
      && forall j :: 0 <= j < |users| && j != k ==> users[j].isBot;
    assert t[k - 1] == users[k];
    forall j | 0 <= j < |t| && j != k - 1 ensures t[j].isBot {
      assert t[j] == users[j + 1];
    }
  }

  /** With a human at the head, that human is the sole one exactly when it is
      `u` and every other user is a bot. */
  lemma SoleHumanHumanHead(users: seq<Reactor>, u: UserId)
    requires users != [] && !users[0].isBot
    ensures Humans(users) == [users[0]] + Humans(users[1..])
    ensures SoleHuman(users, u) <==> users[0].id == u && Humans(users[1..]) == []
  {
    var t := users[1..];
    assert users == [users[0]] + t;
    if SoleHuman(users, u) {
      var k :| 0 <= k < |users| && !users[k].isBot && users[k].id == u
        && forall j :: 0 <= j < |users| && j != k ==> users[j].isBot;
      assert k == 0;
      forall y | y in t ensures !IsHuman(y) {
        var j :| 0 <= j < |t| && t[j] == y;
        assert users[j + 1] == y;
      }
      KeepNone(t, IsHuman);
    }
    if users[0].id == u && Humans(t) == [] {
      forall j | 0 < j < |users| ensures users[j].isBot {
        assert users[j] == t[j - 1] && t[j - 1] in t;
      }
    }
  }

  /** The filtered list is `[u]` exactly when `u` is the sole human. */
  lemma {:induction false} SoleHumanIff(users: seq<Reactor>, u: UserId)
    ensures (|Humans(users)| == 1 && Humans(users)[0].id == u) <==> SoleHuman(users, u)
  {
    if users != [] {
      SoleHumanIff(users[1..], u);
      if users[0].isBot {
        SoleHumanBotHead(users, u);
      } else {
        SoleHumanHumanHead(users, u);
      }
    }
  }

  /** The self-only answer is true exactly when the first marker reaction's
      users were enumerated and `u` is the only human among them; a later
      marker reaction, if any, plays no part. */
  lemma SelfOnlyIff(m: Message, u: UserId)
    ensures IsSelfOnly(m, u) <==>
      exists i :: FirstMarkerAt(m.reactions, i) && m.reactions[i].users.Users?
        && SoleHuman(m.reactions[i].users.list, u)
  {
    match FirstPinReaction(m.reactions)
    case None =>
    case Some(i) =>
      if m.reactions[i].users.Users? {
        SoleHumanIff(m.reactions[i].users.list, u);
      }
      forall k | FirstMarkerAt(m.reactions, k) ensures k == i {
        FirstPinReactionFinds(m.reactions, k);
      }
  }

  /** With a second human beside another on the first marker reaction, the
      message is not self-only for anyone. */
  lemma NotSelfOnlyCases(m: Message, u: UserId, i: nat, a: Reactor, b: Reactor)
    requires FirstMarkerAt(m.reactions, i) && m.reactions[i].users.Users?
    requires a in m.reactions[i].users.list && b in m.reactions[i].users.list
    requires !a.isBot && !b.isBot && a.id != b.id
    ensures !IsSelfOnly(m, u)
  {
    FirstPinReactionFinds(m.reactions, i);
    var list := m.reactions[i].users.list;
    var ia :| 0 <= ia < |list| && list[ia] == a;
    var ib :| 0 <= ib < |list| && list[ib] == b;
    SoleHumanIff(list, u);
  }

  /** Adding bot accounts anywhere among a reaction's users leaves the
      filtered human list, and so the self-only answer, unchanged. */
  lemma BotsAreIgnored(before: seq<Reactor>, bots: seq<Reactor>, after: seq<Reactor>)
    requires forall b :: b in bots ==> b.isBot
    ensures Humans(before + bots + after) == Humans(before + after)
  {
    KeepNone(bots, IsHuman);
    KeepAppend(before, bots, IsHuman);
    assert Humans(before + bots) == Humans(before) + [] == Humans(before);
    KeepAppend(before + bots, after, IsHuman);
    KeepAppend(before, after, IsHuman);
  }

  /** The message `m` with the users of reaction `i` replaced by `users`. */
  function WithUsers(m: Message, i: nat, users: seq<Reactor>): Message
    requires i < |m.reactions|
  {
    m.(reactions := m.reactions[i := m.reactions[i].(users := Users(users))])
  }

  /** Bot reactors never affect the self-only result. */
  lemma SelfOnlyIgnoresBots(m: Message, u: UserId, i: nat,
                            before: seq<Reactor>, bots: seq<Reactor>, after: seq<Reactor>)
    requires i < |m.reactions| && m.reactions[i].users == Users(before + after)
    requires forall b :: b in bots ==> b.isBot
    ensures SelfOnlyResult(WithUsers(m, i, before + bots + after), u) == SelfOnlyResult(m, u)
  {
    var m' := WithUsers(m, i, before + bots + after);
    BotsAreIgnored(before, bots, after);
    match FirstPinReaction(m.reactions)
    case None =>
      assert FirstPinReaction(m'.reactions).None?;
    case Some(k) =>
      assert FirstMarkerAt(m'.reactions, k);
      FirstPinReactionFinds(m'.reactions, k);
  }

  /** check_is_self_only_pin: searches for the first marker reaction,
      collects its human users and compares them with `[u]`. */
  method CheckIsSelfOnlyPin(m: Message, u: UserId) returns (r: Check)
    ensures r == SelfOnlyResult(m, u)
  {
    var pinReaction: Option<nat> := None;
    var i := 0;
    while i < |m.reactions|
      invariant 0 <= i <= |m.reactions|
      invariant forall j :: 0 <= j < i ==> m.reactions[j].emoji != PinEmoji
    {
      if m.reactions[i].emoji == PinEmoji {
        pinReaction := Some(i);
        break;
      }
      i := i + 1;
    }
    if pinReaction.None? {
      return Answer(false);
    }
    FirstPinReactionFinds(m.reactions, pinReaction.value);
    var enumeration := m.reactions[pinReaction.value].users;
    if enumeration.EnumerationFailed? {
      return Raised(enumeration.denied);
    }
    var users := enumeration.list;
    var reactionUsers: seq<Reactor> := [];
    var k := 0;
    while k < |users|
      invariant 0 <= k <= |users|
      invariant reactionUsers == Humans(users[..k])
    {
      HumansStep(users, k);
      if !users[k].isBot {
        reactionUsers := reactionUsers + [users[k]];
      }
      k := k + 1;
    }
    assert users[..k] == users;
    r := Answer(|reactionUsers| == 1 && reactionUsers[0].id == u);
  }
}
