/** The bulk-unpin session of views/unpin_view.py: a select menu over the
    user's self-only pins, an apply button that unpins the selection, and a
    cancel button, on a view only the invoking user may operate. */
module UnpinView {
  import opened Platform
  import opened Seqs
  import opened Text

  /** Options a select menu can hold. */
  const MaxOptions: nat := 25
  /** Characters an option label can hold. */
  const MaxLabel: nat := 100
  const DefaultTimeout: real := 180.0
  const AttachmentLabel: string := "[添付ファイル]"

  /** A menu option: its label and its value, the pin's id in decimal. The
      option's description (the creation date) is display text. */
  datatype SelectOption = SelectOption(caption: string, value: string)

  /** The label of a pin's option: its stripped content, the placeholder
      when nothing is left, or the first 97 characters and "..." when the
      content is longer than 100 characters. */
  function Label(content: string): (caption: string)
    ensures |caption| <= MaxLabel
    ensures Strip(content) == [] ==> caption == AttachmentLabel
    ensures |Strip(content)| > MaxLabel ==>
      |caption| == MaxLabel && caption[..MaxLabel - 3] == Strip(content)[..MaxLabel - 3]
      && caption[MaxLabel - 3..] == "..."
    ensures 0 < |Strip(content)| <= MaxLabel ==> caption == Strip(content)
  {
    var c := Strip(content);
    if c == [] then AttachmentLabel
    else if |c| > MaxLabel then c[..MaxLabel - 3] + "..."
    else c
  }

  /** The option of pin `p`: labelled from its content, valued with its id
      in decimal, which `int` reads back as the id. */
  function OptionFor(p: Message): (o: SelectOption)
    ensures |o.caption| <= MaxLabel
    ensures IsDigits(o.value) && ParseDecimal(o.value) == p.id
  {
    ParseDecimalOfDecimal(p.id);
    SelectOption(Label(p.content), Decimal(p.id))
  }

  /** How many of `n` pins the menu offers. */
  function MenuSize(n: nat): (size: nat)
    ensures size <= MaxOptions && size <= n
    ensures size == n || size == MaxOptions
  {
    if n < MaxOptions then n else MaxOptions
  }

  /** The menu's options: one per pin among the first 25, in order. */
  method BuildOptions(pins: seq<Message>) returns (options: seq<SelectOption>)
    ensures |options| == MenuSize(|pins|)
    ensures forall k :: 0 <= k < |options| ==> options[k] == OptionFor(pins[k])
    ensures forall k :: 0 <= k < |options| ==> |options[k].caption| <= MaxLabel
  {
    options := [];
    var shown := pins[..MenuSize(|pins|)];
    for k := 0 to |shown|
      invariant |options| == k
      invariant forall j :: 0 <= j < k ==> options[j] == OptionFor(pins[j])
    {
      var pin := shown[k];
      var caption := Label(pin.content);
      options := options + [SelectOption(caption, Decimal(pin.id))];
    }
  }

  /** The dict comprehension `{pin.id: pin for pin in pins}`: later pins
      replace earlier ones with the same id. */
  function IndexById(pins: seq<Message>): (byId: map<MessageId, Message>)
    ensures byId.Keys == set p | p in pins :: p.id
    ensures forall id :: id in byId ==> byId[id] in pins && byId[id].id == id
  {
    if pins == [] then map[]
    else
      var init := pins[..|pins| - 1];
      var last := pins[|pins| - 1];
      assert pins == init + [last];
      IndexById(init)[last.id := last]
  }

  /** With distinct ids, every pin is found under its own id. */
  lemma {:induction false} IndexByIdFinds(pins: seq<Message>, k: nat)
    requires k < |pins|
    requires forall i, j :: 0 <= i < j < |pins| ==> pins[i].id != pins[j].id
    ensures pins[k].id in IndexById(pins) && IndexById(pins)[pins[k].id] == pins[k]
  {
    if k < |pins| - 1 {
      IndexByIdFinds(pins[..|pins| - 1], k);
    }
  }

  /** The select menu of the session. */
  class UnpinSelect {
    const options: seq<SelectOption>
    const minValues: nat
    const maxValues: nat

    /** Every option value is a decimal numeral. */
    ghost predicate Valid()
    {
      forall o :: o in options ==> IsDigits(o.value)
    }

    /** The values a user can choose from. */
    ghost function OptionValues(): set<string>
    {
      set o | o in options :: o.value
    }

    constructor (pins: seq<Message>)
      ensures |options| == MenuSize(|pins|)
      ensures forall k :: 0 <= k < |options| ==> options[k] == OptionFor(pins[k])
      ensures minValues == 0 && maxValues == |options|
      ensures Valid()
    {
      var built := BuildOptions(pins);
      options := built;
      minValues := 0;
      maxValues := |built|;
    }

    /** The menu's callback: the view's selection becomes the chosen values
        read as integers, in the order given. The platform only ever sends
        values of this menu's options. */
    method Callback(view: UnpinSelectView, values: seq<string>)
      requires Valid() && view.select == this
      requires forall k :: 0 <= k < |values| ==> values[k] in OptionValues()
      modifies view
      ensures |view.selectedIds| == |values|
      ensures forall k :: 0 <= k < |values| ==> IsDigits(values[k]) && view.selectedIds[k] == ParseDecimal(values[k])
      ensures view.stopped == old(view.stopped)
    {
      assert forall k :: 0 <= k < |values| ==> IsDigits(values[k]) by {
        forall k | 0 <= k < |values| ensures IsDigits(values[k]) {
          assert values[k] in OptionValues();
          var o :| o in options && o.value == values[k];
        }
      }
      view.selectedIds := seq(|values|, k requires 0 <= k < |values| && IsDigits(values[k]) => ParseDecimal(values[k]));
    }
  }

  /** A chosen value names a pin among the first 25 of the session, so its id
      is in the session's map: apply skips nothing chosen from the menu. */
  lemma ChosenValueNamesListedPin(pins: seq<Message>, select: UnpinSelect, v: string)
    requires |select.options| == MenuSize(|pins|)
    requires forall k :: 0 <= k < |select.options| ==> select.options[k] == OptionFor(pins[k])
    requires v in select.OptionValues()
    ensures IsDigits(v)
    ensures exists k :: 0 <= k < MenuSize(|pins|) && pins[k].id == ParseDecimal(v)
    ensures ParseDecimal(v) in IndexById(pins)
  {
    var o :| o in select.options && o.value == v;
    var k :| 0 <= k < |select.options| && select.options[k] == o;
    assert pins[k] in pins;
  }

  /** What the apply loop did: the ids it called unpin for, in order, how
      many of those calls succeeded, and whether an error other than a
      permission or HTTP error ended it. */
  datatype UnpinRun = UnpinRun(calls: seq<MessageId>, successes: nat, aborted: bool)

  /** A run followed by the rest of the loop. */
  function Then(first: UnpinRun, rest: UnpinRun): UnpinRun
  {
    UnpinRun(first.calls + rest.calls, first.successes + rest.successes, rest.aborted)
  }

  /** How many of these calls succeeded. */
  function CountOk(calls: seq<MessageId>, outcome: MessageId -> CallResult): (n: nat)
    ensures n <= |calls|
  {
    if calls == [] then 0
    else (if outcome(calls[0]) == Ok then 1 else 0) + CountOk(calls[1..], outcome)
  }

  /** The selected ids that the session's map holds, in order. */
  function Present(ids: seq<MessageId>, byId: map<MessageId, Message>): seq<MessageId>
  {
    Keep(ids, (id: MessageId) => id in byId)
  }

  /** The apply loop over `ids`, with `outcome` the result of each unpin
      call: it calls unpin, in order, for every id the map holds, skips the
      others, counts the successes, carries on past permission and HTTP
      errors, and stops at any other error. */
  function RunUnpins(ids: seq<MessageId>, byId: map<MessageId, Message>,
                     outcome: MessageId -> CallResult): (run: UnpinRun)
    ensures run.successes == CountOk(run.calls, outcome)
  {
    if ids == [] then UnpinRun([], 0, false)
    else
      var id := ids[0];
      assert ids == [id] + ids[1..];
      if id !in byId then RunUnpins(ids[1..], byId, outcome)
      else
        match outcome(id)
        case Unexpected => UnpinRun([id], 0, true)
        case Ok =>
          var rest := RunUnpins(ids[1..], byId, outcome);
          assert ([id] + rest.calls)[1..] == rest.calls;
          Then(UnpinRun([id], 1, false), rest)
        case _ =>
          var rest := RunUnpins(ids[1..], byId, outcome);
          assert ([id] + rest.calls)[1..] == rest.calls;
          Then(UnpinRun([id], 0, false), rest)
  }

  /** The loop calls unpin for the ids the map holds, in order: all of them
      unless it ended early, a prefix of them if it did. */
  lemma {:induction false} RunUnpinsCallsPresent(ids: seq<MessageId>, byId: map<MessageId, Message>,
                                                 outcome: MessageId -> CallResult)
    ensures RunUnpins(ids, byId, outcome).calls <= Present(ids, byId)
    ensures !RunUnpins(ids, byId, outcome).aborted ==> RunUnpins(ids, byId, outcome).calls == Present(ids, byId)
  {
    if ids != [] {
      var id := ids[0];
      RunUnpinsCallsPresent(ids[1..], byId, outcome);
      RunUnpinsStep(ids, byId, outcome);
      var rest := RunUnpins(ids[1..], byId, outcome);
      if id in byId {
        assert Present(ids, byId) == [id] + Present(ids[1..], byId);
        if outcome(id) != Unexpected {
          assert RunUnpins(ids, byId, outcome).calls == [id] + rest.calls;
        }
      } else {
        assert Present(ids, byId) == Present(ids[1..], byId);
      }
    }
  }

  /** Unpin is only ever called for a selected id that the session's map
      holds: a pin that was not selected is left alone. */
  lemma OnlySelectedUnpinned(ids: seq<MessageId>, byId: map<MessageId, Message>,
                             outcome: MessageId -> CallResult, id: MessageId)
    requires id in RunUnpins(ids, byId, outcome).calls
    ensures id in ids && id in byId
  {
    RunUnpinsCallsPresent(ids, byId, outcome);
    var run := RunUnpins(ids, byId, outcome);
    var k :| 0 <= k < |run.calls| && run.calls[k] == id;
    assert Present(ids, byId)[k] == id;
  }

  /** The loop ends early exactly at the first unpin call that fails with an
      unexpected error: no earlier call did. */
  lemma {:induction false} RunUnpinsStopsAtFirstUnexpected(ids: seq<MessageId>, byId: map<MessageId, Message>,
                                                           outcome: MessageId -> CallResult)
    ensures var run := RunUnpins(ids, byId, outcome);
      && (forall k :: 0 <= k < |run.calls| - 1 ==> outcome(run.calls[k]) != Unexpected)
      && (run.aborted <==> run.calls != [] && outcome(run.calls[|run.calls| - 1]) == Unexpected)
  {
    if ids != [] && ids[0] in byId && outcome(ids[0]) != Unexpected {
      RunUnpinsStopsAtFirstUnexpected(ids[1..], byId, outcome);
      var rest := RunUnpins(ids[1..], byId, outcome);
      var run := RunUnpins(ids, byId, outcome);
      assert run.calls == [ids[0]] + rest.calls;
      assert forall k :: 1 <= k < |run.calls| ==> run.calls[k] == rest.calls[k - 1];
    } else if ids != [] && ids[0] !in byId {
      RunUnpinsStopsAtFirstUnexpected(ids[1..], byId, outcome);
    }
  }

  /** The success count reported never exceeds the number of selected ids. */
  lemma SuccessesBounded(ids: seq<MessageId>, byId: map<MessageId, Message>,
                         outcome: MessageId -> CallResult)
    ensures RunUnpins(ids, byId, outcome).successes <= |RunUnpins(ids, byId, outcome).calls| <= |ids|
  {
    RunUnpinsCallsPresent(ids, byId, outcome);
  }

  /** One step of the apply loop: the run over `ids` in terms of its first id
      and the run over the others. */
  lemma RunUnpinsStep(ids: seq<MessageId>, byId: map<MessageId, Message>,
                      outcome: MessageId -> CallResult)
    requires ids != []
    ensures ids[0] !in byId ==> RunUnpins(ids, byId, outcome) == RunUnpins(ids[1..], byId, outcome)
    ensures ids[0] in byId && outcome(ids[0]) == Unexpected ==>
      RunUnpins(ids, byId, outcome) == UnpinRun([ids[0]], 0, true)
    ensures ids[0] in byId && outcome(ids[0]) != Unexpected ==>
      RunUnpins(ids, byId, outcome)
      == Then(UnpinRun([ids[0]], if outcome(ids[0]) == Ok then 1 else 0, false),
              RunUnpins(ids[1..], byId, outcome))
  {
  }

  /** The apply loop's invariant: the calls and successes so far, followed
      by those of the loop over the ids left, make up the whole run. */
  ghost predicate LoopInvariant(ids: seq<MessageId>, i: nat, calls: seq<MessageId>, successes: nat,
                                byId: map<MessageId, Message>, outcome: MessageId -> CallResult)
    requires i <= |ids|
  {
    var rest := RunUnpins(ids[i..], byId, outcome);
    var full := RunUnpins(ids, byId, outcome);
    && calls + rest.calls == full.calls
    && successes + rest.successes == full.successes
    && rest.aborted == full.aborted
  }

  /** The apply loop's invariant carried over the id at `i`. */
  lemma LoopStep(ids: seq<MessageId>, i: nat, calls: seq<MessageId>, successes: nat,
                 byId: map<MessageId, Message>, outcome: MessageId -> CallResult)
    requires i < |ids| && LoopInvariant(ids, i, calls, successes, byId, outcome)
    ensures ids[i] !in byId ==> LoopInvariant(ids, i + 1, calls, successes, byId, outcome)
    ensures ids[i] in byId && outcome(ids[i]) == Unexpected ==>
      UnpinRun(calls + [ids[i]], successes, true) == RunUnpins(ids, byId, outcome)
    ensures ids[i] in byId && outcome(ids[i]) != Unexpected ==>
      LoopInvariant(ids, i + 1, calls + [ids[i]], successes + if outcome(ids[i]) == Ok then 1 else 0,
                    byId, outcome)
  {
    var id := ids[i];
    var rest := RunUnpins(ids[i..], byId, outcome);
    var next := RunUnpins(ids[i + 1..], byId, outcome);
    assert ids[i..][0] == id && ids[i..][1..] == ids[i + 1..];
    RunUnpinsStep(ids[i..], byId, outcome);
    if id in byId && outcome(id) != Unexpected {
      assert rest.calls == [id] + next.calls;
      assert calls + rest.calls == (calls + [id]) + next.calls;
    }
  }

  /** The loop of ApplyButton.callback: for each selected id the map holds,
      call unpin and count it when it succeeds; a permission or HTTP error
      is passed over, any other error escapes the loop. */
  method UnpinEach(ids: seq<MessageId>, byId: map<MessageId, Message>,
                   outcome: MessageId -> CallResult)
    returns (calls: seq<MessageId>, successCount: nat, aborted: bool)
    ensures UnpinRun(calls, successCount, aborted) == RunUnpins(ids, byId, outcome)
  {
    calls, successCount, aborted := [], 0, false;
    var i := 0;
    assert ids[i..] == ids;
    assert calls + RunUnpins(ids, byId, outcome).calls == RunUnpins(ids, byId, outcome).calls;
    while i < |ids|
      invariant 0 <= i <= |ids|
      invariant LoopInvariant(ids, i, calls, successCount, byId, outcome)
    {
      var msgId := ids[i];
      LoopStep(ids, i, calls, successCount, byId, outcome);
      if msgId in byId {
        var result := outcome(msgId);
        calls := calls + [msgId];
        if result == Unexpected {
          aborted := true;
          return;
        } else if result == Ok {
          successCount := successCount + 1;
        }
      }
      i := i + 1;
    }
    assert ids[i..] == [];
    assert calls + [] == calls;
  }

  /** The scenario of a permission error: two selected pins, the first
      refusing the unpin; both are called and one success is counted. */
  lemma PartialFailureScenario(a: MessageId, b: MessageId, byId: map<MessageId, Message>,
                               outcome: MessageId -> CallResult)
    requires a in byId && b in byId && a != b
    requires outcome(a) == Forbidden && outcome(b) == Ok
    ensures RunUnpins([a, b], byId, outcome) == UnpinRun([a, b], 1, false)
  {
    RunUnpinsStep([a, b], byId, outcome);
    assert [a, b][1..] == [b];
    RunUnpinsStep([b], byId, outcome);
    assert [b][1..] == [];
  }

  /** How the session answered an interaction. NothingSelected, Unpinned and
      Cancelled edit the listing into a message and remove the menu and the
      buttons; Deferred acknowledges a choice in the menu; NoResponse is an
      apply that an unexpected error cut short; Refused is an interaction
      the session did not handle. */
  datatype Response = NothingSelected | Unpinned(count: nat) | Cancelled | Deferred | NoResponse | Refused

  /** The bulk-unpin session. */
  class UnpinSelectView {
    const pins: seq<Message>
    const userId: UserId
    const timeout: real
    const pinsById: map<MessageId, Message>
    const select: UnpinSelect
    var selectedIds: seq<MessageId>
    var stopped: bool

    constructor (pins: seq<Message>, userId: UserId, timeout: real := DefaultTimeout)
      ensures this.pins == pins && this.userId == userId && this.timeout == timeout
      ensures selectedIds == [] && !stopped
      ensures pinsById == IndexById(pins)
      ensures fresh(select) && select.Valid()
      ensures |select.options| == MenuSize(|pins|)
      ensures forall k :: 0 <= k < |select.options| ==> select.options[k] == OptionFor(pins[k])
      ensures select.minValues == 0 && select.maxValues == |select.options|
    {
      this.pins := pins;
      this.userId := userId;
      this.timeout := timeout;
      selectedIds := [];
      pinsById := IndexById(pins);
      select := new UnpinSelect(pins);
      stopped := false;
    }

    /** Only the user who opened the session may operate it. */
    predicate InteractionCheck(actorId: UserId)
    {
      actorId == userId
    }
  }

  /** ApplyButton.callback, with `outcome` the result of each unpin call.
      An empty selection unpins nothing and leaves the session running;
      otherwise the loop runs and, unless an unexpected error escaped it,
      the success count is reported and the session stopped. */
  method ApplyButtonCallback(view: UnpinSelectView, outcome: MessageId -> CallResult)
    returns (response: Response, calls: seq<MessageId>)
    modifies view
    ensures view.selectedIds == old(view.selectedIds)
    ensures view.selectedIds == [] ==>
      response == NothingSelected && calls == [] && view.stopped == old(view.stopped)
    ensures view.selectedIds != [] ==>
      var run := RunUnpins(view.selectedIds, view.pinsById, outcome);
      && calls == run.calls
      && (run.aborted ==> response == NoResponse && view.stopped == old(view.stopped))
      && (!run.aborted ==> response == Unpinned(run.successes) && view.stopped)
  {
    var selectedIds := view.selectedIds;
    if selectedIds == [] {
      return NothingSelected, [];
    }
    var successCount: nat, aborted: bool;
    calls, successCount, aborted := UnpinEach(selectedIds, view.pinsById, outcome);
    if aborted {
      return NoResponse, calls;
    }
    response := Unpinned(successCount);
    view.stopped := true;
  }

  /** CancelButton.callback: no unpin call, the selection left as it is,
      the session stopped. */
  method CancelButtonCallback(view: UnpinSelectView) returns (response: Response)
    modifies view
    ensures response == Cancelled
    ensures view.selectedIds == old(view.selectedIds) && view.stopped
  {
    response := Cancelled;
    view.stopped := true;
  }

  /** A user's interaction with one of the session's components. */
  datatype Interaction = ChooseValues(values: seq<string>) | PressApply | PressCancel

  /** The platform's dispatch of an interaction to the session: a session
      that has stopped no longer listens, and one that is listening runs the
      component's callback only when its interaction check accepts the
      acting user. A refused interaction changes nothing and unpins nothing. */
  method Dispatch(view: UnpinSelectView, actorId: UserId, act: Interaction,
                  outcome: MessageId -> CallResult)
    returns (handled: bool, response: Response, calls: seq<MessageId>)
    requires view.select.Valid()
    requires act.ChooseValues? ==>
      forall k :: 0 <= k < |act.values| ==> act.values[k] in view.select.OptionValues()
    modifies view
    ensures handled <==> !old(view.stopped) && actorId == view.userId
    ensures !handled ==>
      && response == Refused && calls == []
      && view.selectedIds == old(view.selectedIds) && view.stopped == old(view.stopped)
    ensures handled && act.ChooseValues? ==>
      && response == Deferred && calls == [] && view.stopped == old(view.stopped)
      && |view.selectedIds| == |act.values|
      && forall k :: 0 <= k < |act.values| ==>
           IsDigits(act.values[k]) && view.selectedIds[k] == ParseDecimal(act.values[k])
    ensures handled && act.PressApply? ==>
      && view.selectedIds == old(view.selectedIds)
      && (view.selectedIds == [] ==>
            response == NothingSelected && calls == [] && view.stopped == old(view.stopped))
      && (view.selectedIds != [] ==>
            var run := RunUnpins(view.selectedIds, view.pinsById, outcome);
            && calls == run.calls
            && (run.aborted ==> response == NoResponse && view.stopped == old(view.stopped))
            && (!run.aborted ==> response == Unpinned(run.successes) && view.stopped))
    ensures handled && act.PressCancel? ==>
      response == Cancelled && calls == [] && view.selectedIds == old(view.selectedIds) && view.stopped
  {
    if view.stopped || !view.InteractionCheck(actorId) {
      return false, Refused, [];
    }
    handled := true;
    match act
    case ChooseValues(values) =>
      view.select.Callback(view, values);
      response, calls := Deferred, [];
    case PressApply =>
      response, calls := ApplyButtonCallback(view, outcome);
    case PressCancel =>
      response := CancelButtonCallback(view);
      calls := [];
  }
}
