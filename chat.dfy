/**
 * The chat web part's feed (`src/webparts/chat/components/Chat.tsx`): the
 * message list shown on the page, the high-water mark of message ids it has
 * seen, the initial load, the periodic poll that merges the store's answer
 * into the list, the local echo of a message just sent, the poll interval
 * read from the settings and the colour theme with its defaults.
 *
 * The message store ignores the `afterId` the poll passes it, so a poll
 * answer is the whole history of the page, ascending by id; the id-based
 * merge is what keeps the feed free of duplicates.
 */
module Chat {
  import opened Wrappers
  import opened Text
  import opened Models

  // ---------------------------------------------------------------------------
  // Theme
  // ---------------------------------------------------------------------------

  datatype ChatTheme = ChatTheme(
    primaryButtonBackground: string,
    primaryButtonText: string,
    surfaceBorderColor: string,
    messageBorderColor: string,
    selfMessageBackground: string,
    mentionBackground: string,
    mentionText: string)

  const DefaultTheme := ChatTheme("#0078d4", "#ffffff", "#dddddd", "#eeeeee", "#f3f2f1", "#e8f3ff", "#004578")

  /** Every colour of the theme is set (none is the empty, falsy string). */
  predicate Filled(t: ChatTheme) {
    t.primaryButtonBackground != "" && t.primaryButtonText != "" && t.surfaceBorderColor != ""
    && t.messageBorderColor != "" && t.selfMessageBackground != "" && t.mentionBackground != ""
    && t.mentionText != ""
  }

  /** `given || fallback` on strings. */
  function OrElse(given: string, fallback: string): string {
    if given != "" then given else fallback
  }

  /** `theme?.field || DEFAULT_THEME.field`, field by field. */
  function ResolveTheme(theme: Option<ChatTheme>): (r: ChatTheme)
    ensures Filled(r)
    ensures theme.None? ==> r == DefaultTheme
    ensures theme.Some? && Filled(theme.value) ==> r == theme.value
  {
    var t := theme.GetOr(ChatTheme("", "", "", "", "", "", ""));
    ChatTheme(
      OrElse(t.primaryButtonBackground, DefaultTheme.primaryButtonBackground),
      OrElse(t.primaryButtonText, DefaultTheme.primaryButtonText),
      OrElse(t.surfaceBorderColor, DefaultTheme.surfaceBorderColor),
      OrElse(t.messageBorderColor, DefaultTheme.messageBorderColor),
      OrElse(t.selfMessageBackground, DefaultTheme.selfMessageBackground),
      OrElse(t.mentionBackground, DefaultTheme.mentionBackground),
      OrElse(t.mentionText, DefaultTheme.mentionText))
  }

  /** Each colour is the given one when set and the default one otherwise. */
  lemma ResolveThemeFieldwise(theme: ChatTheme)
    ensures var r := ResolveTheme(Some(theme));
      (theme.primaryButtonBackground != "" ==> r.primaryButtonBackground == theme.primaryButtonBackground)
      && (theme.primaryButtonBackground == "" ==> r.primaryButtonBackground == DefaultTheme.primaryButtonBackground)
      && (theme.primaryButtonText != "" ==> r.primaryButtonText == theme.primaryButtonText)
      && (theme.primaryButtonText == "" ==> r.primaryButtonText == DefaultTheme.primaryButtonText)
      && (theme.surfaceBorderColor != "" ==> r.surfaceBorderColor == theme.surfaceBorderColor)
      && (theme.surfaceBorderColor == "" ==> r.surfaceBorderColor == DefaultTheme.surfaceBorderColor)
      && (theme.messageBorderColor != "" ==> r.messageBorderColor == theme.messageBorderColor)
      && (theme.messageBorderColor == "" ==> r.messageBorderColor == DefaultTheme.messageBorderColor)
      && (theme.selfMessageBackground != "" ==> r.selfMessageBackground == theme.selfMessageBackground)
      && (theme.selfMessageBackground == "" ==> r.selfMessageBackground == DefaultTheme.selfMessageBackground)
      && (theme.mentionBackground != "" ==> r.mentionBackground == theme.mentionBackground)
      && (theme.mentionBackground == "" ==> r.mentionBackground == DefaultTheme.mentionBackground)
      && (theme.mentionText != "" ==> r.mentionText == theme.mentionText)
      && (theme.mentionText == "" ==> r.mentionText == DefaultTheme.mentionText)
  {
  }

  /** Resolving an already resolved theme changes nothing. */
  lemma ResolveThemeIdempotent(theme: Option<ChatTheme>)
    ensures ResolveTheme(Some(ResolveTheme(theme))) == ResolveTheme(theme)
  {
  }

  // ---------------------------------------------------------------------------
  // Poll interval
  // ---------------------------------------------------------------------------

  const DefaultPollIntervalMs := 4000
  const MinPollIntervalMs := 2000
  const MaxPollIntervalMs := 15000

  /** `Math.min(15000, Math.max(2000, n))` */
  function Clamp(n: int): (r: int)
    ensures MinPollIntervalMs <= r <= MaxPollIntervalMs
    ensures MinPollIntervalMs <= n <= MaxPollIntervalMs ==> r == n
    ensures n < MinPollIntervalMs ==> r == MinPollIntervalMs
    ensures n > MaxPollIntervalMs ==> r == MaxPollIntervalMs
  {
    var atLeast := if n > MinPollIntervalMs then n else MinPollIntervalMs;
    if atLeast < MaxPollIntervalMs then atLeast else MaxPollIntervalMs
  }

  /**
   * The interval after `load` has read the `PollIntervalMs` setting: a
   * non-empty setting that `parseInt` accepts replaces `current` by its
   * clamped value; anything else leaves `current` as it was.
   */
  function PollIntervalAfter(current: int, configured: Option<string>): (r: int)
    ensures r == current || MinPollIntervalMs <= r <= MaxPollIntervalMs
    ensures r != current ==> configured.Some? && ParseInt(configured.value).Some?
    ensures configured.Some? && configured.value != "" && ParseInt(configured.value).Some?
            ==> r == Clamp(ParseInt(configured.value).value)
  {
    match configured
    case Some(s) =>
      if s == "" then current
      else (match ParseInt(s)
            case Some(n) => Clamp(n)
            case None => current)
    case None => current
  }

  /** The interval a freshly mounted feed ends up with. */
  function ResolvePollInterval(configured: Option<string>): (r: int)
    ensures MinPollIntervalMs <= r <= MaxPollIntervalMs
  {
    PollIntervalAfter(DefaultPollIntervalMs, configured)
  }

  /** A setting holding a printed number is read back and clamped. */
  lemma PollIntervalReadsNumber(n: nat)
    ensures ResolvePollInterval(Some(NatToString(n)))
         == if n < MinPollIntervalMs then MinPollIntervalMs
            else if n > MaxPollIntervalMs then MaxPollIntervalMs
            else n
  {
    ParseIntReadsPrinted("", "", n, "");
    assert "" + ("" + (NatToString(n) + "")) == NatToString(n);
  }

  /** A negative setting gives the lower bound. */
  lemma PollIntervalNegative(n: nat)
    ensures ResolvePollInterval(Some("-" + NatToString(n))) == MinPollIntervalMs
  {
    var digits := NatToString(n);
    var s := "-" + digits;
    ParseIntReadsPrinted("", "-", n, "");
    assert digits + "" == digits;
    assert "" + s == s;
    assert ParseInt(s) == Some(-(n as int));
  }

  /** A missing, empty or non-numeric setting keeps the default. */
  lemma PollIntervalDefault(configured: Option<string>)
    requires configured.None? || configured.value == "" || ParseInt(configured.value).None?
    ensures ResolvePollInterval(configured) == DefaultPollIntervalMs
  {
  }

  // ---------------------------------------------------------------------------
  // Message ids
  // ---------------------------------------------------------------------------

  /** The numeric ids carried by `ms`. */
  function Ids(ms: seq<ChatMessage>): set<int> {
    set m | m in ms && m.id.Some? :: m.id.value
  }

  /** No two entries of `ms` carry the same numeric id. */
  predicate DistinctIds(ms: seq<ChatMessage>) {
    forall i, j :: 0 <= i < j < |ms| && ms[i].id.Some? ==> ms[i].id != ms[j].id
  }

  /** `h` is at least every numeric id in `ms`. */
  predicate Covers(h: int, ms: seq<ChatMessage>) {
    forall m :: m in ms && m.id.Some? ==> m.id.value <= h
  }

  /** The number of entries of `ms` whose id is `k`. */
  function CountId(ms: seq<ChatMessage>, k: int): (r: nat)
    ensures r <= |ms|
    ensures r == 0 <==> k !in Ids(ms)
  {
    if ms == [] then 0
    else
      var rest := CountId(ms[1..], k);
      assert Ids(ms) == (if ms[0].id.Some? then {ms[0].id.value} else {}) + Ids(ms[1..]) by {
        assert forall m :: m in ms <==> m == ms[0] || m in ms[1..];
      }
      (if ms[0].id == Some(k) then 1 else 0) + rest
  }

  lemma {:induction false} CountIdAppend(a: seq<ChatMessage>, b: seq<ChatMessage>, k: int)
    ensures CountId(a + b, k) == CountId(a, k) + CountId(b, k)
  {
    if a == [] {
      assert a + b == b;
    } else {
      assert (a + b)[0] == a[0];
      assert (a + b)[1..] == a[1..] + b;
      CountIdAppend(a[1..], b, k);
    }
  }

  // ---------------------------------------------------------------------------
  // registerMessages
  // ---------------------------------------------------------------------------

  /** The running maximum `registerMessages` leaves behind, starting from `h`. */
  function HighWater(h: int, items: seq<ChatMessage>): (r: int)
    ensures r >= h
    ensures Covers(r, items)
    ensures r == h || exists m :: m in items && m.id == Some(r)
  {
    if items == [] then h
    else
      var init := items[..|items| - 1];
      var last := items[|items| - 1];
      var w := HighWater(h, init);
      assert forall m :: m in items <==> m in init || m == last by {
        assert items == init + [last];
      }
      if last.id.Some? && last.id.value > w then last.id.value else w
  }

  /** Registering more items never lowers the mark. */
  lemma {:induction false} HighWaterMonotone(h: int, g: int, items: seq<ChatMessage>)
    requires h <= g
    ensures HighWater(h, items) <= HighWater(g, items)
  {
    if items != [] {
      HighWaterMonotone(h, g, items[..|items| - 1]);
    }
  }

  // ---------------------------------------------------------------------------
  // The poll merge and the local echo
  // ---------------------------------------------------------------------------

  /** A poll item the feed does not hold yet: no id, or an id not in `prev`. */
  predicate IsNew(prev: seq<ChatMessage>, m: ChatMessage) {
    m.id.None? || m.id.value !in Ids(prev)
  }

  /** `latest.filter(m => typeof m.id === "number" ? !existingIds.has(m.id) : true)` */
  function NewItems(prev: seq<ChatMessage>, latest: seq<ChatMessage>): (r: seq<ChatMessage>)
    ensures |r| <= |latest|
    ensures forall m :: m in r <==> m in latest && IsNew(prev, m)
  {
    if latest == [] then []
    else
      var rest := NewItems(prev, latest[1..]);
      assert forall m :: m in latest <==> m == latest[0] || m in latest[1..];
      if IsNew(prev, latest[0]) then
        var r := [latest[0]] + rest;
        assert r[1..] == rest;
        r
      else rest
  }

  /** The filter works item by item, in poll order. */
  lemma {:induction false} NewItemsAppend(prev: seq<ChatMessage>, a: seq<ChatMessage>, b: seq<ChatMessage>)
    ensures NewItems(prev, a + b) == NewItems(prev, a) + NewItems(prev, b)
  {
    if a == [] {
      assert a + b == b;
    } else {
      assert (a + b)[0] == a[0];
      assert (a + b)[1..] == a[1..] + b;
      NewItemsAppend(prev, a[1..], b);
    }
  }

  /** The poll item with id `k` is dropped exactly when the feed already holds `k`. */
  lemma {:induction false} NewItemsCount(prev: seq<ChatMessage>, latest: seq<ChatMessage>, k: int)
    ensures CountId(NewItems(prev, latest), k) == if k in Ids(prev) then 0 else CountId(latest, k)
  {
    if latest != [] {
      NewItemsCount(prev, latest[1..], k);
      var rest := NewItems(prev, latest[1..]);
      if IsNew(prev, latest[0]) {
        assert NewItems(prev, latest) == [latest[0]] + rest;
        CountIdAppend([latest[0]], rest, k);
        var single: seq<ChatMessage> := [latest[0]];
        assert single[1..] == [];
      }
    }
  }

  /** The filter keeps distinct ids distinct. */
  lemma {:induction false} NewItemsDistinct(prev: seq<ChatMessage>, latest: seq<ChatMessage>)
    requires DistinctIds(latest)
    ensures DistinctIds(NewItems(prev, latest))
  {
    if latest != [] {
      var tail := latest[1..];
      assert DistinctIds(tail) by {
        forall i, j | 0 <= i < j < |tail| && tail[i].id.Some?
          ensures tail[i].id != tail[j].id
        {
          assert tail[i] == latest[i + 1] && tail[j] == latest[j + 1];
        }
      }
      NewItemsDistinct(prev, tail);
      var rest := NewItems(prev, tail);
      if IsNew(prev, latest[0]) {
        var r := [latest[0]] + rest;
        forall i, j | 0 <= i < j < |r| && r[i].id.Some?
          ensures r[i].id != r[j].id
        {
          if i == 0 {
            assert r[j] == rest[j - 1];
            assert rest[j - 1] in tail;
            var k :| 0 <= k < |tail| && tail[k] == rest[j - 1];
            assert latest[k + 1] == tail[k];
          } else {
            assert r[i] == rest[i - 1] && r[j] == rest[j - 1];
          }
        }
      }
    }
  }

  /**
   * The functional update of `refreshMessages` (lines 151-164): an empty feed
   * takes the poll result as it is; otherwise the poll items that are new are
   * appended after the feed, which is kept as it was.
   */
  function Merge(prev: seq<ChatMessage>, latest: seq<ChatMessage>): (r: seq<ChatMessage>)
    ensures prev == [] ==> r == latest
    ensures |prev| <= |r| && r[..|prev|] == prev
    ensures forall m :: m in r <==> m in prev || (m in latest && (prev == [] || IsNew(prev, m)))
  {
    if prev == [] then latest
    else
      var r := prev + NewItems(prev, latest);
      assert r[..|prev|] == prev;
      r
  }

  /**
   * The functional update of `handleMessageSent` (lines 194-198): the sent
   * message is appended unless its numeric id is already in the feed.
   */
  function AppendSent(prev: seq<ChatMessage>, m: ChatMessage): (r: seq<ChatMessage>)
    ensures r == prev || r == prev + [m]
    ensures r == prev <==> m.id.Some? && m.id.value in Ids(prev)
  {
    if m.id.Some? && m.id.value in Ids(prev) then prev else prev + [m]
  }

  lemma IdsAppend(a: seq<ChatMessage>, b: seq<ChatMessage>)
    ensures Ids(a + b) == Ids(a) + Ids(b)
  {
    assert forall m :: m in a + b <==> m in a || m in b;
  }

  /** Nothing is appended when the feed already holds every poll item's id. */
  lemma {:induction false} NewItemsNoneNew(prev: seq<ChatMessage>, latest: seq<ChatMessage>)
    requires forall m :: m in latest ==> !IsNew(prev, m)
    ensures NewItems(prev, latest) == []
  {
    if latest != [] {
      assert latest[0] in latest;
      NewItemsNoneNew(prev, latest[1..]);
    }
  }

  /** Merging the same batch of id-carrying items twice is merging it once. */
  lemma MergeSameBatchTwice(prev: seq<ChatMessage>, latest: seq<ChatMessage>)
    requires forall m :: m in latest ==> m.id.Some?
    ensures Merge(Merge(prev, latest), latest) == Merge(prev, latest)
  {
    var r := Merge(prev, latest);
    if r != [] {
      forall m | m in latest
        ensures !IsNew(r, m)
      {
        if prev != [] && !IsNew(prev, m) {
          var p :| p in prev && p.id.Some? && p.id.value == m.id.value;
          assert p in r;
        } else {
          assert m in r;
        }
      }
      NewItemsNoneNew(r, latest);
      assert r + [] == r;
    }
  }

  /** A merge keeps the feed free of duplicate ids when the poll result is. */
  lemma MergeKeepsIdsDistinct(prev: seq<ChatMessage>, latest: seq<ChatMessage>)
    ensures DistinctIds(prev) && DistinctIds(latest) ==> DistinctIds(Merge(prev, latest))
  {
    if prev != [] && DistinctIds(prev) && DistinctIds(latest) {
      var added := NewItems(prev, latest);
      NewItemsDistinct(prev, latest);
      var r := prev + added;
      forall i, j | 0 <= i < j < |r| && r[i].id.Some?
        ensures r[i].id != r[j].id
      {
        if j < |prev| {
        } else if i >= |prev| {
          assert r[i] == added[i - |prev|] && r[j] == added[j - |prev|];
        } else {
          assert r[j] == added[j - |prev|];
          assert r[j] in added;
          assert r[i] in prev;
        }
      }
    }
  }

  /** The local echo keeps the feed free of duplicate ids. */
  lemma AppendSentKeepsIdsDistinct(prev: seq<ChatMessage>, m: ChatMessage)
    requires DistinctIds(prev)
    ensures DistinctIds(AppendSent(prev, m))
  {
    var r := AppendSent(prev, m);
    if r != prev {
      forall i, j | 0 <= i < j < |r| && r[i].id.Some?
        ensures r[i].id != r[j].id
      {
        if j == |prev| {
          assert r[i] in prev;
        }
      }
    }
  }

  /**
   * A sent message with id `k`, then a poll whose answer holds `k` too: the
   * feed ends up with exactly one entry with id `k`.
   */
  lemma SentThenPolled(prev: seq<ChatMessage>, m: ChatMessage, latest: seq<ChatMessage>, k: int)
    requires m.id == Some(k)
    requires CountId(prev, k) <= 1
    ensures CountId(Merge(AppendSent(prev, m), latest), k) == 1
  {
    var s := AppendSent(prev, m);
    assert CountId(s, k) == 1 by {
      if s != prev {
        CountIdAppend(prev, [m], k);
        var single: seq<ChatMessage> := [m];
        assert single[1..] == [];
      }
    }
    assert k in Ids(s);
    NewItemsCount(s, latest, k);
    CountIdAppend(s, NewItems(s, latest), k);
  }

  /** The same, with the poll first and the echo of the sent message second. */
  lemma PolledThenSent(prev: seq<ChatMessage>, latest: seq<ChatMessage>, m: ChatMessage, k: int)
    requires m.id == Some(k)
    requires CountId(prev, k) <= 1
    requires CountId(latest, k) == 1
    ensures CountId(AppendSent(Merge(prev, latest), m), k) == 1
  {
    var r := Merge(prev, latest);
    assert CountId(r, k) == 1 by {
      if prev != [] {
        NewItemsCount(prev, latest, k);
        CountIdAppend(prev, NewItems(prev, latest), k);
      }
    }
  }

  // ---------------------------------------------------------------------------
  // The component's state
  // ---------------------------------------------------------------------------

  /** The state `Chat` keeps in its `useState` hooks and refs. */
  class Feed {
    var messages: seq<ChatMessage>
    var lastMessageId: int
    var loading: bool
    var error: Option<string>
    var pollingReady: bool
    var pollIntervalMs: int
    /** `pageInfoRef.current`, reduced to the page id the store is queried with. */
    var pageUniqueId: Option<string>

    ghost predicate Valid()
      reads this
    {
      MinPollIntervalMs <= pollIntervalMs <= MaxPollIntervalMs && Covers(lastMessageId, messages)
    }

    constructor ()
      ensures Valid()
      ensures messages == [] && lastMessageId == 0 && loading && error == None
      ensures !pollingReady && pollIntervalMs == DefaultPollIntervalMs && pageUniqueId == None
    {
      messages := [];
      lastMessageId := 0;
      loading := true;
      error := None;
      pollingReady := false;
      pollIntervalMs := DefaultPollIntervalMs;
      pageUniqueId := None;
    }

    /** `registerMessages(items)`: raise the mark to the largest numeric id seen. */
    method RegisterMessages(items: seq<ChatMessage>)
      modifies this`lastMessageId
      ensures lastMessageId == HighWater(old(lastMessageId), items)
    {
      if |items| == 0 {
        return;
      }
      var maxId := lastMessageId;
      var i := 0;
      while i < |items|
        invariant 0 <= i <= |items|
        invariant maxId == HighWater(lastMessageId, items[..i])
      {
        var item := items[i];
        assert items[..i + 1][..i] == items[..i];
        if item.id.Some? && item.id.value > maxId {
          maxId := item.id.value;
        }
        i := i + 1;
      }
      assert items[..i] == items;
      lastMessageId := maxId;
    }

    /**
     * `load()`. `pageInfo` is the outcome of the set-up calls up to and
     * including `getPageInfo`, `settingsList` that of `ensureSettingsList`,
     * `configured` the `PollIntervalMs` setting (`getSetting` never throws)
     * and `items` the outcome of `getMessages`.
     */
    method Load(pageInfo: Step<string>, settingsList: Step<()>, configured: Option<string>,
                items: Step<seq<ChatMessage>>)
      requires Valid()
      modifies this
      ensures Valid()
      ensures !loading
      ensures pageInfo.Threw? ==>
        error == Some(pageInfo.message) && !pollingReady
        && messages == old(messages) && lastMessageId == old(lastMessageId)
        && pollIntervalMs == old(pollIntervalMs) && pageUniqueId == old(pageUniqueId)
      ensures pageInfo.Done? ==> pageUniqueId == Some(pageInfo.value)
      ensures pageInfo.Done? && settingsList.Threw? ==>
        error == Some(settingsList.message) && !pollingReady
        && messages == old(messages) && lastMessageId == old(lastMessageId)
        && pollIntervalMs == old(pollIntervalMs)
      ensures pageInfo.Done? && settingsList.Done? ==>
        pollIntervalMs == PollIntervalAfter(old(pollIntervalMs), configured)
      ensures pageInfo.Done? && settingsList.Done? && items.Threw? ==>
        error == Some(items.message) && !pollingReady
        && messages == old(messages) && lastMessageId == old(lastMessageId)
      ensures pageInfo.Done? && settingsList.Done? && items.Done? ==>
        error == None && pollingReady && messages == items.value
        && lastMessageId == HighWater(old(lastMessageId), items.value)
    {
      loading := true;
      error := None;
      pollingReady := false;
      match pageInfo {
        case Threw(message) =>
          error := Some(message);
        case Done(id) =>
          pageUniqueId := Some(id);
          match settingsList {
            case Threw(message) =>
              error := Some(message);
            case Done(_) =>
              pollIntervalMs := PollIntervalAfter(pollIntervalMs, configured);
              match items {
                case Threw(message) =>
                  error := Some(message);
                case Done(fetched) =>
                  ghost var mark := lastMessageId;
                  RegisterMessages(fetched);
                  assert lastMessageId == HighWater(mark, fetched);
                  messages := fetched;
                  pollingReady := true;
              }
          }
      }
      loading := false;
    }

    /**
     * `refreshMessages()`. `latest` is the outcome of `getMessages` for the
     * page: the page's whole history, since the store ignores `afterId`.
     */
    method Refresh(latest: Step<seq<ChatMessage>>)
      requires Valid()
      modifies this`messages, this`lastMessageId
      ensures Valid()
      ensures pageUniqueId.None? || latest.Threw? || latest.value == [] ==>
        messages == old(messages) && lastMessageId == old(lastMessageId)
      ensures pageUniqueId.Some? && latest.Done? && latest.value != [] ==>
        messages == Merge(old(messages), latest.value)
        && lastMessageId == HighWater(old(lastMessageId), latest.value)
      ensures latest.Done? && old(DistinctIds(messages)) && DistinctIds(latest.value) ==> DistinctIds(messages)
    {
      if pageUniqueId.None? {
        return;
      }
      match latest {
        case Threw(_) =>
          // console.warn: a failed poll changes nothing
        case Done(fetched) =>
          if |fetched| == 0 {
            return;
          }
          MergeCovered(lastMessageId, messages, fetched);
          RegisterMessages(fetched);
          MergeKeepsIdsDistinct(messages, fetched);
          messages := Merge(messages, fetched);
      }
    }

    /** `handleMessageSent(message)`: the local echo of a message just sent. */
    method HandleMessageSent(message: ChatMessage)
      requires Valid()
      modifies this`messages, this`lastMessageId
      ensures Valid()
      ensures messages == AppendSent(old(messages), message)
      ensures lastMessageId == HighWater(old(lastMessageId), [message])
      ensures old(DistinctIds(messages)) ==> DistinctIds(messages)
    {
      RegisterMessages([message]);
      if DistinctIds(messages) {
        AppendSentKeepsIdsDistinct(messages, message);
      }
      messages := AppendSent(messages, message);
    }
  }

  /** After a poll the mark still covers every message held. */
  lemma MergeCovered(h: int, prev: seq<ChatMessage>, latest: seq<ChatMessage>)
    requires Covers(h, prev)
    ensures Covers(HighWater(h, latest), Merge(prev, latest))
  {
    var r := HighWater(h, latest);
    forall m | m in Merge(prev, latest) && m.id.Some?
      ensures m.id.value <= r
    {
      if m !in prev {
        assert m in latest;
      }
    }
  }
}
