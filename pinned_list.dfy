/** The /pinnedlist command of main.py: filter the channel's pins, render one
    line per pin (📌 when the invoking user alone holds its marker, 🔒
    otherwise), cap the text, choose the footer, and open an unpin session
    when the user has self-only pins. */
module PinnedList {
  import opened Platform
  import opened Seqs
  import opened Text
  import opened SelfOnly

  const MicrosPerDay: int := 86_400_000_000
  /** The largest day count a `timedelta` can hold. */
  const MaxTimedeltaDays: int := 999_999_999
  /** Characters of content shown in a line's preview. */
  const PreviewLength: nat := 10
  /** Characters of the joined lines kept in the summary. */
  const DescriptionLimit: nat := 4000
  /** Options the unpin menu can hold; the footer mentions it. */
  const SelectLimit: nat := 25
  const Ellipsis: string := "..."
  const AttachmentPlaceholder: string := "[添付ファイル/埋め込み]"
  const OmittedMarker: string := "\n...（以降省略）"

  // ---------------------------------------------------------------- filters

  /** The author filter: all pins without a user, else the pins by that user. */
  function FilterByAuthor(pins: seq<Message>, user: Option<UserId>): (r: seq<Message>)
  {
    if user.None? then pins else Keep(pins, (p: Message) => p.authorId == user.value)
  }

  /** The date filter is on only for a positive number of days. */
  predicate DateFilterApplies(days: Option<int>)
  {
    days.Some? && days.value > 0
  }

  /** The earliest creation time kept when filtering by `days` days. Times
      are microseconds since 0001-01-01 00:00 UTC, the earliest time a
      `datetime` can hold. */
  function Cutoff(now: int, days: int): int
  {
    now - days * MicrosPerDay
  }

  /** Computing the cutoff raises OverflowError: the day count does not fit
      a `timedelta`, or the cutoff falls before the earliest `datetime`. */
  predicate CutoffOverflows(now: int, days: int)
  {
    days > MaxTimedeltaDays || Cutoff(now, days) < 0
  }

  /** The date filter applies and its cutoff cannot be computed. */
  predicate DateFilterFails(days: Option<int>, now: int)
  {
    DateFilterApplies(days) && CutoffOverflows(now, days.value)
  }

  /** The date filter: pins created at or after the cutoff (inclusive). */
  function FilterByDate(pins: seq<Message>, days: Option<int>, now: int): (r: seq<Message>)
  {
    if DateFilterApplies(days) then Keep(pins, (p: Message) => p.createdAt >= Cutoff(now, days.value))
    else pins
  }

  /** Whether the listing keeps pin `p`: by the chosen author (if any) and
      created at or after the cutoff (if the date filter applies). */
  predicate Listed(p: Message, user: Option<UserId>, days: Option<int>, now: int)
  {
    && (user.Some? ==> p.authorId == user.value)
    && (DateFilterApplies(days) ==> p.createdAt >= Cutoff(now, days.value))
  }

  /** Both filters, the author filter first: the pins the listing keeps. */
  function Filtered(pins: seq<Message>, user: Option<UserId>, days: Option<int>, now: int): (r: seq<Message>)
    ensures forall p :: p in r <==> p in pins && Listed(p, user, days, now)
  {
    FilterByDate(FilterByAuthor(pins, user), days, now)
  }

  /** The listing keeps the pins it lists each as often as it occurs, and in
      their original order. */
  lemma FilteredSpec(pins: seq<Message>, user: Option<UserId>, days: Option<int>, now: int)
    ensures var r := Filtered(pins, user, days, now);
      && (forall p :: multiset(r)[p] == if Listed(p, user, days, now) then multiset(pins)[p] else 0)
      && Subsequence(r, pins)
  {
    var a := FilterByAuthor(pins, user);
    var r := FilterByDate(a, days, now);
    if user.None? {
      SubsequenceReflexive(pins);
    } else {
      var byAuthor := (p: Message) => p.authorId == user.value;
      KeepSubsequence(pins, byAuthor);
      forall p ensures multiset(a)[p] == if byAuthor(p) then multiset(pins)[p] else 0 {
        KeepMultiset(pins, byAuthor, p);
      }
    }
    if !DateFilterApplies(days) {
      SubsequenceReflexive(a);
    } else {
      var byDate := (p: Message) => p.createdAt >= Cutoff(now, days.value);
      KeepSubsequence(a, byDate);
      forall p ensures multiset(r)[p] == if byDate(p) then multiset(a)[p] else 0 {
        KeepMultiset(a, byDate, p);
      }
    }
    SubsequenceTransitive(r, a, pins);
  }

  lemma {:induction false} SubsequenceReflexive(s: seq<Message>)
    ensures Subsequence(s, s)
  {
    if s != [] {
      SubsequenceReflexive(s[1..]);
    }
  }

  /** Without a positive number of days nothing is dropped for its age. */
  lemma NoDateFilterKeepsAll(pins: seq<Message>, days: Option<int>, now: int)
    requires !DateFilterApplies(days)
    ensures FilterByDate(pins, days, now) == pins
  {
  }

  // ---------------------------------------------------------------- lines

  function Unbreak(c: char): char
  {
    if c == '\n' then ' ' else c
  }

  /** `s.replace('\n', ' ')`. */
  function ReplaceNewlines(s: string): (r: string)
  {
    seq(|s|, i requires 0 <= i < |s| => Unbreak(s[i]))
  }

  /** The shown part of a pin's content before the blank check: at most ten
      characters, newlines replaced by spaces, "..." when content was cut. */
  function PreviewText(content: string): string
  {
    var cut := if |content| < PreviewLength then |content| else PreviewLength;
    ReplaceNewlines(content)[..cut] + (if |content| > PreviewLength then Ellipsis else "")
  }

  /** The preview of a pin's content, as /pinnedlist builds it: never all
      whitespace and never longer than ten characters and "...". */
  function Preview(content: string): (r: string)
    ensures !AllSpace(r)
    ensures |r| <= PreviewLength + |Ellipsis|
  {
    var p := PreviewText(content);
    if Strip(p) == [] then
      PlaceholderNotBlank();
      AttachmentPlaceholder
    else
      StripEmptyIff(p);
      p
  }

  lemma PlaceholderNotBlank()
    ensures !AllSpace(AttachmentPlaceholder)
  {
    assert !IsSpace(AttachmentPlaceholder[0]);
  }

  lemma PreviewTextChars(content: string)
    ensures var p := PreviewText(content);
      var cut := if |content| < PreviewLength then |content| else PreviewLength;
      && |p| == cut + (if |content| > PreviewLength then |Ellipsis| else 0)
      && (forall i :: 0 <= i < cut ==> p[i] == Unbreak(content[i]))
      && p[cut..] == (if |content| > PreviewLength then Ellipsis else "")
  {
  }

  /** Replacing newlines by spaces keeps whitespace whitespace and leaves no
      newline. */
  lemma UnbreakKeepsSpace(c: char)
    ensures IsSpace(Unbreak(c)) <==> IsSpace(c)
    ensures Unbreak(c) != '\n'
  {
    assert IsSpace('\n') && IsSpace(' ');
  }

  lemma DotIsNotSpace()
    ensures !IsSpace('.')
  {
  }

  /** A content longer than ten characters is previewed by its first ten,
      newlines turned into spaces, followed by "...". */
  lemma PreviewOfLongContent(content: string)
    requires |content| > PreviewLength
    ensures var r := Preview(content);
      && |r| == PreviewLength + |Ellipsis| && r[PreviewLength..] == Ellipsis
      && (forall i :: 0 <= i < PreviewLength ==> r[i] == Unbreak(content[i]))
      && (forall i :: 0 <= i < |r| ==> r[i] != '\n')
  {
    var p := PreviewText(content);
    PreviewTextChars(content);
    assert p[|p| - 1] == Ellipsis[2] == '.';
    DotIsNotSpace();
    StripEmptyIff(p);
    forall i | 0 <= i < PreviewLength ensures p[i] != '\n' {
      UnbreakKeepsSpace(content[i]);
    }
    assert forall i :: PreviewLength <= i < |p| ==> p[i] == Ellipsis[i - PreviewLength];
  }

  /** Content of at most ten characters that is all whitespace (an
      attachment-only message has none) is previewed by the placeholder. */
  lemma PreviewOfBlankContent(content: string)
    requires |content| <= PreviewLength && AllSpace(content)
    ensures Preview(content) == AttachmentPlaceholder
  {
    var p := PreviewText(content);
    PreviewTextChars(content);
    forall i | 0 <= i < |p| ensures IsSpace(p[i]) {
      UnbreakKeepsSpace(content[i]);
    }
    StripEmptyIff(p);
  }

  /** Other content of at most ten characters is previewed whole, newlines
      turned into spaces, with no ellipsis. */
  lemma PreviewOfShortContent(content: string)
    requires |content| <= PreviewLength && !AllSpace(content)
    ensures var r := Preview(content);
      && |r| == |content|
      && (forall i :: 0 <= i < |r| ==> r[i] == Unbreak(content[i]))
      && (forall i :: 0 <= i < |r| ==> r[i] != '\n')
  {
    var p := PreviewText(content);
    PreviewTextChars(content);
    var k :| 0 <= k < |content| && !IsSpace(content[k]);
    UnbreakKeepsSpace(content[k]);
    StripEmptyIff(p);
    forall i | 0 <= i < |p| ensures p[i] != '\n' {
      UnbreakKeepsSpace(content[i]);
    }
  }

  /** The line of one pin: 📌 and a link when it is self-only, 🔒, the link
      and its author otherwise; the link's text is the preview. */
  function EntryLine(p: Message, selfOnly: bool): (line: string)
    ensures line != [] && (line[0] == '📌' <==> selfOnly) && (line[0] == '🔒' <==> !selfOnly)
    ensures |line| >= 3 && line[1..3] == " [" && Preview(p.content) <= line[3..]
  {
    var head := if selfOnly then "📌 [" else "🔒 [";
    var pv := Preview(p.content);
    var tail := if selfOnly then "](" + p.link + ")" else "](" + p.link + ") *by " + p.authorName + "*";
    PrefixAndRest(head, pv + tail);
    head + (pv + tail)
  }

  /** A three-character head followed by `rest`: the slices after the first
      character are the head's and `rest`. */
  lemma PrefixAndRest(head: string, rest: string)
    requires |head| == 3
    ensures (head + rest)[1..3] == head[1..3] && (head + rest)[3..] == rest
  {
  }

  /** One line per pin, in order. */
  function Lines(pins: seq<Message>, u: UserId): seq<string>
  {
    seq(|pins|, k requires 0 <= k < |pins| => EntryLine(pins[k], IsSelfOnly(pins[k], u)))
  }

  /** The self-only pins, in order: those the unpin session offers. */
  function MyPins(pins: seq<Message>, u: UserId): seq<Message>
  {
    Keep(pins, (p: Message) => IsSelfOnly(p, u))
  }

  /** Every pin yields one line, marked 📌 exactly when it is self-only, with
      the pin's preview as its link text. */
  lemma LinesSpec(pins: seq<Message>, u: UserId)
    ensures |Lines(pins, u)| == |pins|
    ensures forall k :: 0 <= k < |pins| ==> (Lines(pins, u)[k][0] == '📌' <==> IsSelfOnly(pins[k], u))
    ensures forall k :: 0 <= k < |pins| ==> Preview(pins[k].content) <= Lines(pins, u)[k][3..]
  {
  }

  /** The self-only pins (the 📌 ones) are kept whole and in order. */
  lemma MyPinsSpec(pins: seq<Message>, u: UserId)
    ensures forall p :: p in MyPins(pins, u) <==> p in pins && IsSelfOnly(p, u)
    ensures Subsequence(MyPins(pins, u), pins)
  {
    KeepSubsequence(pins, (p: Message) => IsSelfOnly(p, u));
  }

  lemma LinesAppend(pins: seq<Message>, p: Message, u: UserId)
    ensures Lines(pins + [p], u) == Lines(pins, u) + [EntryLine(p, IsSelfOnly(p, u))]
  {
    var a := Lines(pins + [p], u);
    var b := Lines(pins, u) + [EntryLine(p, IsSelfOnly(p, u))];
    assert |a| == |b|;
    forall k | 0 <= k < |a| ensures a[k] == b[k] {
      if k < |pins| {
        assert (pins + [p])[k] == pins[k];
      }
    }
  }

  lemma MyPinsAppend(pins: seq<Message>, p: Message, u: UserId)
    ensures MyPins(pins + [p], u) == MyPins(pins, u) + (if IsSelfOnly(p, u) then [p] else [])
  {
    KeepAppend(pins, [p], (q: Message) => IsSelfOnly(q, u));
  }

  /** No self-only check on these pins raises. */
  ghost predicate AllChecked(pins: seq<Message>, u: UserId)
  {
    forall p :: p in pins ==> SelfOnlyResult(p, u).Answer?
  }

  lemma AllCheckedAppend(pins: seq<Message>, p: Message, u: UserId)
    ensures AllChecked(pins + [p], u) <==> AllChecked(pins, u) && SelfOnlyResult(p, u).Answer?
  {
    assert forall q :: q in pins + [p] <==> q in pins || q == p;
  }

  /** The check of pin `k` is the first one that raises. */
  ghost predicate FirstRaiseAt(pins: seq<Message>, u: UserId, k: int)
  {
    0 <= k < |pins| && AllChecked(pins[..k], u) && SelfOnlyResult(pins[k], u).Raised?
  }

  /** Only one check can be the first to raise. */
  lemma FirstRaiseUnique(pins: seq<Message>, u: UserId, j: int, k: int)
    requires FirstRaiseAt(pins, u, j) && FirstRaiseAt(pins, u, k)
    ensures j == k
  {
  }

  /** When some check raises, one of them is the first to raise. */
  lemma {:induction false} FirstRaiseExists(pins: seq<Message>, u: UserId)
    requires !AllChecked(pins, u)
    ensures exists k :: FirstRaiseAt(pins, u, k)
  {
    assert pins != [];
    var n := |pins| - 1;
    assert pins == pins[..n] + [pins[n]];
    AllCheckedAppend(pins[..n], pins[n], u);
    if AllChecked(pins[..n], u) {
      assert FirstRaiseAt(pins, u, n);
    } else {
      FirstRaiseExists(pins[..n], u);
      var k :| FirstRaiseAt(pins[..n], u, k);
      assert pins[..n][..k] == pins[..k];
      assert FirstRaiseAt(pins, u, k);
    }
  }

  /** What the loop over the pins produced: the lines and the self-only
      pins, or the error of the first check that raised. */
  datatype Entries = Entries(lines: seq<string>, mine: seq<Message>) | EntriesRaised(denied: bool)

  /** The loop of /pinnedlist over the filtered pins: appends each pin's line
      and collects the self-only pins. A self-only check that raises ends the
      loop and passes its error on. */
  method BuildEntries(pins: seq<Message>, myId: UserId) returns (r: Entries)
    ensures r.Entries? <==> AllChecked(pins, myId)
    ensures r.Entries? ==> r.lines == Lines(pins, myId) && r.mine == MyPins(pins, myId)
    ensures r.EntriesRaised? ==>
      forall k :: FirstRaiseAt(pins, myId, k) ==> r.denied == SelfOnlyResult(pins[k], myId).denied
  {
    var messageList: seq<string> := [];
    var myPins: seq<Message> := [];
    var i := 0;
    while i < |pins|
      invariant 0 <= i <= |pins|
      invariant AllChecked(pins[..i], myId)
      invariant messageList == Lines(pins[..i], myId)
      invariant myPins == MyPins(pins[..i], myId)
    {
      var pin := pins[i];
      var isSelfOnly := CheckIsSelfOnlyPin(pin, myId);
      if isSelfOnly.Raised? {
        assert pin in pins;
        assert FirstRaiseAt(pins, myId, i);
        forall k | FirstRaiseAt(pins, myId, k)
          ensures isSelfOnly.denied == SelfOnlyResult(pins[k], myId).denied
        {
          FirstRaiseUnique(pins, myId, i, k);
        }
        return EntriesRaised(isSelfOnly.denied);
      }
      assert pins[..i + 1] == pins[..i] + [pin];
      AllCheckedAppend(pins[..i], pin, myId);
      MyPinsAppend(pins[..i], pin, myId);
      LinesAppend(pins[..i], pin, myId);
      if isSelfOnly.selfOnly {
        messageList := messageList + [EntryLine(pin, true)];
        myPins := myPins + [pin];
      } else {
        messageList := messageList + [EntryLine(pin, false)];
      }
      assert messageList == Lines(pins[..i + 1], myId);
      i := i + 1;
    }
    assert pins[..i] == pins;
    r := Entries(messageList, myPins);
  }

  // ---------------------------------------------------------------- text

  /** The total length of the lines. */
  function TotalLength(lines: seq<string>): nat
  {
    if lines == [] then 0 else TotalLength(lines[..|lines| - 1]) + |lines[|lines| - 1]|
  }

  /** `"\n".join(lines)`: the lines with one newline between each two. */
  function JoinLines(lines: seq<string>): (r: string)
    ensures lines == [] ==> r == []
    ensures lines != [] ==> |r| == TotalLength(lines) + |lines| - 1
  {
    if lines == [] then ""
    else if |lines| == 1 then lines[0]
    else JoinLines(lines[..|lines| - 1]) + "\n" + lines[|lines| - 1]
  }

  /** Joining one more line appends a newline and that line. */
  lemma JoinLinesAppend(lines: seq<string>, line: string)
    requires lines != []
    ensures JoinLines(lines + [line]) == JoinLines(lines) + "\n" + line
  {
    assert (lines + [line])[..|lines|] == lines;
  }

  /** Each line is found in the joined text, right after the join of the
      lines before it and a newline. */
  lemma {:induction false} JoinLinesContains(lines: seq<string>, k: nat)
    requires k < |lines|
    ensures (if k == 0 then "" else JoinLines(lines[..k]) + "\n") + lines[k] <= JoinLines(lines)
  {
    var n := |lines|;
    if k < n - 1 {
      var init := lines[..n - 1];
      JoinLinesContains(init, k);
      assert init[..k] == lines[..k] && init[k] == lines[k];
      assert JoinLines(init) <= JoinLines(lines);
    } else if k > 0 {
      assert lines[..k] == lines[..n - 1];
    }
  }

  /** The description is kept whole up to the limit; a longer one is cut to
      its first 4000 characters followed by the omission marker. */
  function TruncateDescription(d: string): (r: string)
    ensures |r| <= DescriptionLimit + |OmittedMarker|
    ensures |d| <= DescriptionLimit ==> r == d
    ensures |d| > DescriptionLimit ==>
      |r| == DescriptionLimit + |OmittedMarker|
      && r[..DescriptionLimit] == d[..DescriptionLimit] && r[DescriptionLimit..] == OmittedMarker
  {
    if |d| > DescriptionLimit then d[..DescriptionLimit] + OmittedMarker else d
  }

  // ---------------------------------------------------------------- footer

  /** The footer's last part: the self-only count, with the note that only
      the first 25 can be unpinned when there are more; or that there are
      none. */
  datatype FooterNote = FirstOnly(mine: nat) | Unpinnable(mine: nat) | NoneOfYours

  /** The footer: the number of listed pins, the period (in days) when one
      is mentioned, and the note. */
  datatype Footer = Footer(total: nat, period: Option<int>, note: FooterNote)

  /** The period text as main.py chooses it, with Python's truthiness of
      `days`: shown for any day count other than zero, negative ones too. */
  function PeriodTextAsWritten(days: Option<int>): (period: Option<int>)
    ensures period.Some? <==> days.Some? && days.value != 0
    ensures period.Some? ==> period == days
  {
    if days.Some? && days.value != 0 then days else None
  }

  /** As written, a negative day count is mentioned as a period although no
      date filtering took place. */
  lemma PeriodShownWithoutFiltering(pins: seq<Message>, now: int)
    ensures PeriodTextAsWritten(Some(-3)) == Some(-3)
    ensures FilterByDate(pins, Some(-3), now) == pins
  {
  }

  /** The period text as evidently intended: mentioned exactly when the date
      filter applied. */
  function PeriodText(days: Option<int>): (period: Option<int>)
    ensures period.Some? <==> DateFilterApplies(days)
    ensures period.Some? ==> period == days
  {
    if DateFilterApplies(days) then days else None
  }

  /** Under the intended rule, a mentioned period means every listed pin
      is within it. */
  lemma PeriodMeansFiltered(pins: seq<Message>, user: Option<UserId>, days: Option<int>, now: int)
    requires PeriodText(days).Some?
    ensures forall p :: p in Filtered(pins, user, days, now) ==> p.createdAt >= Cutoff(now, days.value)
  {
  }

  /** The code's period rule and the intended one disagree exactly on a
      negative day count. */
  lemma PeriodRulesDiffer(days: Option<int>)
    ensures PeriodTextAsWritten(days) != PeriodText(days) <==> days.Some? && days.value < 0
  {
  }

  /** The footer: total, the period as the code mentions it, and the note. */
  function MakeFooter(total: nat, days: Option<int>, mine: nat): (f: Footer)
    ensures f.total == total && f.period == PeriodTextAsWritten(days)
    ensures f.note.FirstOnly? <==> mine > SelectLimit
    ensures f.note.NoneOfYours? <==> mine == 0
    ensures !f.note.NoneOfYours? ==> f.note.mine == mine
  {
    var note :=
      if mine > 0 then (if mine > SelectLimit then FirstOnly(mine) else Unpinnable(mine))
      else NoneOfYours;
    Footer(total, PeriodTextAsWritten(days), note)
  }

  // ---------------------------------------------------------------- command

  /** What fetching the channel's pins gave. */
  datatype PinsFetch = PinsListed(pins: seq<Message>) | PinsForbidden | PinsFailed

  /** An unpin session as the command opens it: the pins it offers and the
      user who alone may operate it. */
  datatype Session = Session(pins: seq<Message>, owner: UserId)

  /** The command's ephemeral reply: "no pins" (with the period and user it
      mentions), the summary with the unpin session's pins when one is
      opened, the permission error, or the generic error. */
  datatype Reply =
    | NoPinsFound(period: Option<int>, user: Option<UserId>)
    | Summary(description: string, footer: Footer, session: Option<Session>)
    | PermissionDenied
    | CommandFailed

  /** /pinnedlist for invoking user `invoker` at time `now`, in microseconds
      since 0001-01-01 00:00 UTC. */
  method PinnedListCommand(fetch: PinsFetch, user: Option<UserId>, days: Option<int>,
                           now: nat, invoker: UserId)
    returns (reply: Reply)
    ensures fetch.PinsForbidden? ==> reply == PermissionDenied
    ensures fetch.PinsFailed? ==> reply == CommandFailed
    ensures fetch.PinsListed? && DateFilterFails(days, now) ==> reply == CommandFailed
    ensures fetch.PinsListed? && !DateFilterFails(days, now) && Filtered(fetch.pins, user, days, now) == [] ==>
      reply == NoPinsFound(PeriodTextAsWritten(days), user)
    ensures fetch.PinsListed? && !DateFilterFails(days, now) && Filtered(fetch.pins, user, days, now) != [] ==>
      var filtered := Filtered(fetch.pins, user, days, now);
      var mine := MyPins(filtered, invoker);
      if !AllChecked(filtered, invoker) then
        && (reply == PermissionDenied || reply == CommandFailed)
        && forall k :: FirstRaiseAt(filtered, invoker, k) ==>
             reply == (if SelfOnlyResult(filtered[k], invoker).denied then PermissionDenied else CommandFailed)
      else
        && reply.Summary?
        && reply.description == TruncateDescription(JoinLines(Lines(filtered, invoker)))
        && reply.footer == MakeFooter(|filtered|, days, |mine|)
        && reply.session == (if mine == [] then None else Some(Session(mine, invoker)))
  {
    if !fetch.PinsListed? {
      return if fetch.PinsForbidden? then PermissionDenied else CommandFailed;
    }
    var filteredPins := fetch.pins;
    if user.Some? {
      filteredPins := Keep(filteredPins, (p: Message) => p.authorId == user.value);
    }
    if days.Some? && days.value > 0 {
      if CutoffOverflows(now, days.value) {
        return CommandFailed;
      }
      var cutoffDate := Cutoff(now, days.value);
      filteredPins := Keep(filteredPins, (p: Message) => p.createdAt >= cutoffDate);
    }
    if filteredPins == [] {
      return NoPinsFound(PeriodTextAsWritten(days), user);
    }
    var entries := BuildEntries(filteredPins, invoker);
    if entries.EntriesRaised? {
      return if entries.denied then PermissionDenied else CommandFailed;
    }
    var description := TruncateDescription(JoinLines(entries.lines));
    var footer := MakeFooter(|filteredPins|, days, |entries.mine|);
    var session := if entries.mine != [] then Some(Session(entries.mine, invoker)) else None;
    reply := Summary(description, footer, session);
  }

  /** The listing scenario: with `days` = 7, a pin from three days ago is
      listed and one from ten days ago is not. */
  lemma SevenDayScenario(recent: Message, stale: Message, now: int)
    requires recent.createdAt == now - 3 * MicrosPerDay
    requires stale.createdAt == now - 10 * MicrosPerDay
    ensures Filtered([recent, stale], None, Some(7), now) == [recent]
  {
    var keep := (p: Message) => p.createdAt >= Cutoff(now, 7);
    assert [recent, stale] == [recent] + [stale];
    KeepAppend([recent], [stale], keep);
    assert Keep([stale], keep) == [];
    assert Keep([recent], keep) == [recent];
  }
}
