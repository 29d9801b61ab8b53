/** The reaction handlers of main.py: a marker reaction added to a message
    pins it, and a marker reaction removed unpins it once no human holds the
    marker any more. Each handler reads the message afresh and decides from
    that read alone. */
module Reconciler {
  import opened Platform
  import opened Seqs
  import opened SelfOnly

  /** A raw reaction event: who reacted, with which emoji, on which message. */
  datatype ReactionEvent = ReactionEvent(userId: UserId, emoji: string, messageId: MessageId)

  /** What looking up the event's channel and fetching its message gave. */
  datatype Fetch = ChannelMissing | MessageNotFound | FetchForbidden | Fetched(message: Message)

  /** The platform call a handler makes: at most one per event. */
  datatype Action = NoCall | CallPin | CallUnpin

  /** The short-lived notice a handler sends to the channel, naming the
      account that reacted. */
  datatype Notice =
    | NoNotice
    | Confirmed(actor: UserId)
    | NoPermission(actor: UserId)
    | Failed(actor: UserId)
    | UnexpectedError(actor: UserId)

  datatype Outcome = Outcome(action: Action, notice: Notice)

  /** A handler acts only on marker reactions by accounts other than the bot. */
  predicate IsMarkerEvent(botId: UserId, ev: ReactionEvent)
  {
    ev.userId != botId && ev.emoji == PinEmoji
  }

  /** The notice after a pin or unpin call: a confirmation exactly when the
      call succeeded, an error notice naming the actor otherwise. */
  function NoticeFor(result: CallResult, actor: UserId): (n: Notice)
    ensures n != NoNotice && n.actor == actor
    ensures n.Confirmed? <==> result == Ok
    ensures result == Forbidden <==> n.NoPermission?
    ensures result == HttpError <==> n.Failed?
    ensures result == Unexpected <==> n.UnexpectedError?
  {
    match result
    case Ok => Confirmed(actor)
    case Forbidden => NoPermission(actor)
    case HttpError => Failed(actor)
    case Unexpected => UnexpectedError(actor)
  }

  /** on_raw_reaction_add: pin the message unless the event is the bot's own,
      is not the marker, the message could not be fetched, or the message is
      already pinned. */
  function OnRawReactionAdd(botId: UserId, ev: ReactionEvent, fetch: Fetch, pinResult: CallResult): (o: Outcome)
    ensures o.action != CallUnpin
    ensures o.action == CallPin <==> IsMarkerEvent(botId, ev) && fetch.Fetched? && !fetch.message.pinned
    ensures o.action == CallPin ==> o.notice == NoticeFor(pinResult, ev.userId)
    ensures o.action == NoCall ==> o.notice == NoNotice
  {
    if ev.userId == botId then Outcome(NoCall, NoNotice)
    else if ev.emoji != PinEmoji then Outcome(NoCall, NoNotice)
    else
      match fetch
      case Fetched(message) =>
        if message.pinned then Outcome(NoCall, NoNotice)
        else Outcome(CallPin, NoticeFor(pinResult, ev.userId))
      case _ => Outcome(NoCall, NoNotice)
  }

  /** The pin flag as a two-state machine: where a handler's call leaves the
      flag it read, given what the call returned. Only a successful call
      moves it. */
  function PinnedAfter(pinned: bool, action: Action, result: CallResult): (after: bool)
    ensures action == NoCall ==> after == pinned
    ensures after != pinned ==> result == Ok
    ensures result == Ok && action == CallPin ==> after
    ensures result == Ok && action == CallUnpin ==> !after
  {
    match action
    case NoCall => pinned
    case CallPin => pinned || result == Ok
    case CallUnpin => pinned && result != Ok
  }

  /** A duplicate add is a no-op: once the first add has pinned the message
      (or it was pinned already), a second add of the marker by anyone makes
      no call. */
  lemma DuplicateAddIsNoOp(botId: UserId, ev: ReactionEvent, ev': ReactionEvent,
                           m: Message, r: CallResult, r': CallResult)
    requires IsMarkerEvent(botId, ev)
    requires m.pinned || r == Ok
    ensures var o := OnRawReactionAdd(botId, ev, Fetched(m), r);
      var m' := m.(pinned := PinnedAfter(m.pinned, o.action, r));
      OnRawReactionAdd(botId, ev', Fetched(m'), r').action == NoCall
  {
  }

  /** The marker reaction no longer holds the message: every enumerated user
      is a bot, or, when enumeration failed, the platform's counter is zero. */
  ghost predicate Released(r: Reaction)
  {
    match r.users
    case Users(list) => forall x :: x in list ==> x.isBot
    case EnumerationFailed(_) => r.count == 0
  }

  /** The remove path's decision on the message as last read: the first
      marker reaction is gone, or no human user is left on it; when its users
      cannot be enumerated, only a counter of zero counts as gone. The pin is
      kept only for a first marker reaction that is not released. */
  function ShouldUnpin(m: Message): (r: bool)
    ensures !r ==> exists i :: FirstMarkerAt(m.reactions, i) && !Released(m.reactions[i])
  {
    match FirstPinReaction(m.reactions)
    case None => true
    case Some(i) =>
      match m.reactions[i].users
      case Users(list) =>
        var humans := Humans(list);
        if |humans| == 0 then true
        else
          assert humans[0] in humans;
          false
      case EnumerationFailed(_) => m.reactions[i].count == 0
  }

  /** Unpinning is decided exactly when no reaction carries the marker or the
      first one that does is released. */
  lemma ShouldUnpinIff(m: Message)
    ensures ShouldUnpin(m) <==>
      (forall j :: 0 <= j < |m.reactions| ==> m.reactions[j].emoji != PinEmoji)
      || exists i :: FirstMarkerAt(m.reactions, i) && Released(m.reactions[i])
  {
    match FirstPinReaction(m.reactions)
    case None =>
    case Some(i) =>
      forall k | FirstMarkerAt(m.reactions, k) ensures k == i {
        FirstPinReactionFinds(m.reactions, k);
      }
      match m.reactions[i].users
      case Users(list) =>
        if |Humans(list)| != 0 {
          assert Humans(list)[0] in Humans(list);
        } else {
          KeepNone(list, IsHuman);
        }
      case EnumerationFailed(_) =>
  }

  /** Co-pin protection: while one human still holds the first marker
      reaction, the remove path does not unpin. */
  lemma CoPinProtection(m: Message, i: nat, h: Reactor)
    requires FirstMarkerAt(m.reactions, i) && m.reactions[i].users.Users?
    requires h in m.reactions[i].users.list && !h.isBot
    ensures !ShouldUnpin(m)
  {
    ShouldUnpinIff(m);
  }

  /** When enumeration fails, a marker reaction whose counter is at least one
      never leads to an unpin. */
  lemma EnumerationFailureKeepsPin(m: Message, i: nat)
    requires FirstMarkerAt(m.reactions, i) && m.reactions[i].users.EnumerationFailed?
    requires m.reactions[i].count >= 1
    ensures !ShouldUnpin(m)
  {
    ShouldUnpinIff(m);
  }

  /** Bot users on the marker reaction never change the remove decision. */
  lemma ShouldUnpinIgnoresBots(m: Message, i: nat,
                               before: seq<Reactor>, bots: seq<Reactor>, after: seq<Reactor>)
    requires i < |m.reactions| && m.reactions[i].users == Users(before + after)
    requires forall b :: b in bots ==> b.isBot
    ensures ShouldUnpin(WithUsers(m, i, before + bots + after)) == ShouldUnpin(m)
  {
    var m' := WithUsers(m, i, before + bots + after);
    BotsAreIgnored(before, bots, after);
    match FirstPinReaction(m.reactions)
    case None =>
      assert FirstPinReaction(m'.reactions).None?;
    case Some(k) =>
      assert FirstMarkerAt(m'.reactions, k);
      FirstPinReactionFinds(m'.reactions, k);
  }

  /** The message the remove path decides on: the second fetch when it
      succeeded, the first one otherwise. */
  function LatestRead(first: Message, refetch: Option<Message>): Message
  {
    if refetch.Some? then refetch.value else first
  }

  /** on_raw_reaction_remove. `fetch` is the first read of the message and
      `refetch` the second one (None when it raised). An unpin call is made
      exactly for a marker removal by another account on a message that was
      pinned, when the latest read shows the marker released. */
  method OnRawReactionRemove(botId: UserId, ev: ReactionEvent, fetch: Fetch,
                             refetch: Option<Message>, unpinResult: CallResult)
    returns (o: Outcome)
    ensures o.action != CallPin
    ensures o.action == CallUnpin <==>
      IsMarkerEvent(botId, ev) && fetch.Fetched? && fetch.message.pinned
      && ShouldUnpin(LatestRead(fetch.message, refetch))
    ensures o.action == CallUnpin ==> o.notice == NoticeFor(unpinResult, ev.userId)
    ensures o.action == NoCall ==> o.notice == NoNotice
  {
    o := Outcome(NoCall, NoNotice);
    if ev.userId == botId || ev.emoji != PinEmoji || !fetch.Fetched? {
      return;
    }
    var message := fetch.message;
    if !message.pinned {
      return;
    }
    if refetch.Some? {
      message := refetch.value;
    }

    var shouldUnpin := false;
    var pushpinReaction: Option<nat> := None;
    var i := 0;
    while i < |message.reactions|
      invariant 0 <= i <= |message.reactions|
      invariant forall j :: 0 <= j < i ==> message.reactions[j].emoji != PinEmoji
    {
      if message.reactions[i].emoji == PinEmoji {
        pushpinReaction := Some(i);
        break;
      }
      i := i + 1;
    }

    if pushpinReaction.None? {
      shouldUnpin := true;
    } else {
      FirstPinReactionFinds(message.reactions, pushpinReaction.value);
      var reaction := message.reactions[pushpinReaction.value];
      match reaction.users
      case Users(users) =>
        var realUserCount := 0;
        var k := 0;
        while k < |users|
          invariant 0 <= k <= |users|
          invariant realUserCount == |Humans(users[..k])|
        {
          HumansStep(users, k);
          if !users[k].isBot {
            realUserCount := realUserCount + 1;
          }
          k := k + 1;
        }
        assert users[..k] == users;
        if realUserCount == 0 {
          shouldUnpin := true;
        }
      case EnumerationFailed(_) =>
        if reaction.count == 0 {
          shouldUnpin := true;
        }
    }

    if shouldUnpin {
      o := Outcome(CallUnpin, NoticeFor(unpinResult, ev.userId));
    }
  }
}
