/**
 * The message composer (`src/webparts/chat/components/MessageInput.tsx`): a
 * plain text area with `@`-mention detection at the caret, the mention
 * picker's suggestions, the mention splice, the staged attachments and the
 * send handler with its ordered calls to the file store, the message store,
 * the mail service and the feed.
 */
module MessageInput {
  import opened Wrappers
  import opened Text
  import opened Models

  // ---------------------------------------------------------------------------
  // The token at the caret
  // ---------------------------------------------------------------------------

  /** `value.slice(0, caret)` / `value.slice(caret)` cut here: slices clamp to the length. */
  function CaretIn(value: string, caret: nat): (c: nat)
    ensures c <= |value|
    ensures caret <= |value| ==> c == caret
    ensures caret > |value| ==> c == |value|
  {
    if caret <= |value| then caret else |value|
  }

  /**
   * `value.slice(0, caret).split(/\s/).pop()`: the longest run of non-white
   * characters that ends at the caret.
   */
  function TokenAtCaret(value: string, caret: nat): (t: string)
    ensures var before := value[..CaretIn(value, caret)];
      |t| <= |before| && before[|before| - |t|..] == t && NoSpace(t)
      && (|t| == |before| || IsSpace(before[|before| - |t| - 1]))
  {
    var before := value[..CaretIn(value, caret)];
    LastTokenIsMaximalSuffix(before);
    LastToken(before)
  }

  /** The picker state `onTextChange` derives from the new value and its caret. */
  datatype Picker = Picker(open: bool, query: string)

  /** Lines 42-53: open on an `@` token, with the rest of the token as the query. */
  function PickerFor(value: string, caret: nat): (p: Picker)
    ensures p.open <==> StartsWith(TokenAtCaret(value, caret), "@")
    ensures p.open ==> "@" + p.query == TokenAtCaret(value, caret)
    ensures !p.open ==> p.query == ""
  {
    var token := TokenAtCaret(value, caret);
    if StartsWith(token, "@") then Picker(true, token[1..]) else Picker(false, "")
  }

  // ---------------------------------------------------------------------------
  // The mention splice
  // ---------------------------------------------------------------------------

  /** A new text and the caret position inside it. */
  datatype Edit = Edit(text: string, caret: nat)

  /** `beforeNew && !beforeNew.endsWith(" ") ? " " : ""` */
  function Spacer(beforeNew: string): string {
    if beforeNew != "" && beforeNew[|beforeNew| - 1] != ' ' then " " else ""
  }

  /**
   * Lines 59-68 and 79: the token at the caret is replaced by `@displayName `,
   * the text after the caret is kept, and the caret goes right after the
   * inserted space.
   */
  function MentionSplice(value: string, caret: nat, displayName: string): (r: Edit)
    ensures r.caret <= |r.text|
    ensures r.text[r.caret..] == value[CaretIn(value, caret)..]
    ensures |"@" + displayName + " "| <= r.caret
    ensures r.text[r.caret - |"@" + displayName + " "|..r.caret] == "@" + displayName + " "
  {
    var c := CaretIn(value, caret);
    var before := value[..c];
    var after := value[c..];
    var tokens := SplitOnSpace(before);
    var beforeNew := JoinWithSpace(tokens[..|tokens| - 1]);
    var display := "@" + displayName;
    var head := beforeNew + Spacer(beforeNew) + display + " ";
    var text := head + after;
    assert text[..|head|] == head && text[|head|..] == after;
    Edit(text, |head|)
  }

  /** What a splice keeps of the text before the caret, separator included. */
  function KeptBefore(before: string): string {
    var t := LastToken(before);
    if |t| >= |before| then ""
    else
      var kept := before[..|before| - |t| - 1];
      NormalizeSpaces(kept) + (if kept != [] && !IsSpace(kept[|kept| - 1]) then " " else "")
  }

  lemma SpacerAfterNormalize(kept: string)
    ensures Spacer(NormalizeSpaces(kept)) == if kept != [] && !IsSpace(kept[|kept| - 1]) then " " else ""
  {
    assert IsSpace(' ');
  }

  lemma SpliceHeadSeparated(before: string, beforeNew: string)
    requires |LastToken(before)| < |before|
    requires beforeNew == NormalizeSpaces(before[..|before| - |LastToken(before)| - 1])
    ensures beforeNew + Spacer(beforeNew) == KeptBefore(before)
  {
    SpacerAfterNormalize(before[..|before| - |LastToken(before)| - 1]);
  }

  lemma SpliceHead(before: string)
    ensures var tokens := SplitOnSpace(before);
      var beforeNew := JoinWithSpace(tokens[..|tokens| - 1]);
      beforeNew + Spacer(beforeNew) == KeptBefore(before)
  {
    var tokens := SplitOnSpace(before);
    JoinWithoutLastToken(before);
    if |tokens| == 1 {
      assert tokens[..0] == [];
      assert LastToken(before) == before;
    } else {
      SpliceHeadSeparated(before, JoinWithSpace(tokens[..|tokens| - 1]));
    }
  }

  /**
   * What the splice does to the text before the caret: the token at the caret
   * and the one white-space character in front of it are dropped, every other
   * white-space character becomes a plain space, and a space separates what
   * is left from the mention unless it already ends with white space.
   */
  lemma MentionReplacesToken(value: string, caret: nat, displayName: string)
    ensures var c := CaretIn(value, caret);
      MentionSplice(value, caret, displayName).text
        == KeptBefore(value[..c]) + "@" + displayName + " " + value[c..]
  {
    var c := CaretIn(value, caret);
    var before := value[..c];
    var tokens := SplitOnSpace(before);
    var beforeNew := JoinWithSpace(tokens[..|tokens| - 1]);
    SpliceHead(before);
    assert MentionSplice(value, caret, displayName).text
        == beforeNew + Spacer(beforeNew) + ("@" + displayName) + " " + value[c..];
    AppendAssoc(KeptBefore(before), "@", displayName);
  }

  /** Right after a mention is inserted the caret follows a space, so no token is being typed. */
  lemma NoTokenAfterMention(value: string, caret: nat, displayName: string)
    ensures var r := MentionSplice(value, caret, displayName);
      TokenAtCaret(r.text, r.caret) == "" && !PickerFor(r.text, r.caret).open
  {
    var r := MentionSplice(value, caret, displayName);
    var t := TokenAtCaret(r.text, r.caret);
    var before := r.text[..r.caret];
    assert before[|before| - 1] == ' ';
  }

  // ---------------------------------------------------------------------------
  // Mentions
  // ---------------------------------------------------------------------------

  /** Adding the same person twice, under any case of the email, adds them once. */
  lemma AddMentionTwice(ms: seq<UserMention>, m: UserMention, m2: UserMention)
    requires SameEmail(m, m2)
    ensures AddIfNewEmail(AddIfNewEmail(ms, m), m2) == AddIfNewEmail(ms, m)
  {
    var r := AddIfNewEmail(ms, m);
    if r != ms {
      assert r[|ms|] == m;
    } else {
      var i :| 0 <= i < |ms| && SameEmail(ms[i], m);
      assert SameEmail(ms[i], m2);
    }
  }

  // ---------------------------------------------------------------------------
  // Staged files
  // ---------------------------------------------------------------------------

  /** `selected.find(f => f.size > 5 * 1024 * 1024)`, as the index of the file found. */
  function FirstOversized(fs: seq<PickedFile>): (r: Option<nat>)
    ensures r.Some? ==> r.value < |fs| && fs[r.value].size > MaxFileSize
    ensures r.Some? ==> forall j :: 0 <= j < r.value ==> fs[j].size <= MaxFileSize
    ensures r.None? ==> forall j :: 0 <= j < |fs| ==> fs[j].size <= MaxFileSize
  {
    if fs == [] then None
    else if fs[0].size > MaxFileSize then Some(0)
    else
      match FirstOversized(fs[1..])
      case Some(k) => Some(k + 1)
      case None => None
  }

  /** `prev.filter(f => f.name !== name)` */
  function WithoutName(fs: seq<PickedFile>, name: string): (r: seq<PickedFile>)
    ensures |r| <= |fs|
    ensures forall f :: f in r <==> f in fs && f.name != name
  {
    if fs == [] then []
    else
      var rest := WithoutName(fs[1..], name);
      assert forall f :: f in fs <==> f == fs[0] || f in fs[1..];
      if fs[0].name != name then
        var r := [fs[0]] + rest;
        assert r[1..] == rest;
        r
      else rest
  }

  /** The removal works file by file and keeps the order of the others. */
  lemma {:induction false} WithoutNameAppend(a: seq<PickedFile>, b: seq<PickedFile>, name: string)
    ensures WithoutName(a + b, name) == WithoutName(a, name) + WithoutName(b, name)
  {
    if a == [] {
      assert a + b == b;
    } else {
      assert (a + b)[0] == a[0];
      assert (a + b)[1..] == a[1..] + b;
      WithoutNameAppend(a[1..], b, name);
    }
  }

  /** Removing a name no staged file carries changes nothing. */
  lemma {:induction false} WithoutAbsentName(fs: seq<PickedFile>, name: string)
    requires forall i :: 0 <= i < |fs| ==> fs[i].name != name
    ensures WithoutName(fs, name) == fs
  {
    if fs != [] {
      WithoutAbsentName(fs[1..], name);
      assert [fs[0]] + fs[1..] == fs;
    }
  }

  // ---------------------------------------------------------------------------
  // Suggestions
  // ---------------------------------------------------------------------------

  const MaxSuggestions: nat := 8

  /** The member's lower-cased display name or email contains `q`. */
  predicate Matches(m: UserMention, q: string) {
    Contains(Lower(m.displayName), q) || Contains(Lower(m.email), q)
  }

  /** `base.filter(m => ...includes(q) || ...includes(q))` */
  function Matching(members: seq<UserMention>, q: string): (r: seq<UserMention>)
    ensures |r| <= |members|
    ensures forall m :: m in r <==> m in members && Matches(m, q)
  {
    if members == [] then []
    else
      var rest := Matching(members[1..], q);
      assert forall m :: m in members <==> m == members[0] || m in members[1..];
      if Matches(members[0], q) then
        var r := [members[0]] + rest;
        assert r[1..] == rest;
        r
      else rest
  }

  /**
   * The filter goes member by member: a single member is kept exactly when it
   * matches, and the matches of two lists follow each other, so the
   * suggestions keep the members' order and their repeats.
   */
  lemma MatchingOne(m: UserMention, q: string)
    ensures Matching([m], q) == if Matches(m, q) then [m] else []
  {
    assert [m][1..] == [];
  }

  lemma {:induction false} MatchingAppend(a: seq<UserMention>, b: seq<UserMention>, q: string)
    ensures Matching(a + b, q) == Matching(a, q) + Matching(b, q)
  {
    if a == [] {
      assert a + b == b;
    } else {
      assert (a + b)[0] == a[0];
      assert (a + b)[1..] == a[1..] + b;
      MatchingAppend(a[1..], b, q);
    }
  }

  /** `filteredSuggestions` (lines 158-169). */
  function FilteredSuggestions(pickerOpen: bool, pickerQuery: string, members: seq<UserMention>)
    : (r: seq<UserMention>)
    ensures |r| <= MaxSuggestions
    ensures !pickerOpen ==> r == []
    ensures forall m :: m in r ==> m in members
    ensures var q := Lower(Trim(pickerQuery));
      pickerOpen && q != "" ==> forall m :: m in r ==> Matches(m, q)
    ensures var q := Lower(Trim(pickerQuery));
      var all := if q == "" then members else Matching(members, q);
      pickerOpen ==> |r| <= |all| && r == all[..|r|] && (|r| == MaxSuggestions || |r| == |all|)
  {
    if !pickerOpen then []
    else
      var q := Lower(Trim(pickerQuery));
      var all := if q == "" then members else Matching(members, q);
      if |all| <= MaxSuggestions then all else all[..MaxSuggestions]
  }

  /** `MentionPicker` renders nothing when closed or without suggestions. */
  predicate PickerVisible(open: bool, suggestions: seq<UserMention>) {
    open && |suggestions| > 0
  }

  /** The picker shows exactly when it is open and some member matches the query. */
  lemma PickerVisibleIffMatch(pickerOpen: bool, pickerQuery: string, members: seq<UserMention>)
    ensures var q := Lower(Trim(pickerQuery));
      PickerVisible(pickerOpen, FilteredSuggestions(pickerOpen, pickerQuery, members))
      <==> pickerOpen && (if q == "" then members != [] else exists m :: m in members && Matches(m, q))
  {
    var q := Lower(Trim(pickerQuery));
    if pickerOpen && q != "" {
      var all := Matching(members, q);
      if all != [] {
        assert all[0] in all;
      }
      if exists m :: m in members && Matches(m, q) {
        var m :| m in members && Matches(m, q);
        assert m in all;
      }
    }
  }

  // ---------------------------------------------------------------------------
  // Sending
  // ---------------------------------------------------------------------------

  const EmptyMessageError := "Escreve uma mensagem ou adiciona um ficheiro."
  const SendFailedError := "Falha ao enviar a mensagem"
  const PreviewLength: nat := 200

  /** `e?.message || "Falha ao enviar a mensagem"` */
  function SendError(message: string): (r: string)
    ensures r != ""
    ensures message != "" ==> r == message
  {
    if message != "" then message else SendFailedError
  }

  /** `message.text.slice(0, 200)` */
  function Preview(text: string): (r: string)
    ensures |r| <= PreviewLength && |r| <= |text| && r == text[..|r|]
    ensures |text| <= PreviewLength ==> r == text
    ensures |text| > PreviewLength ==> |r| == PreviewLength
  {
    if |text| <= PreviewLength then text else text[..PreviewLength]
  }

  /** The calls `handleSend` makes, in the order it makes them. */
  datatype Call =
    | GetPageInfo
    | UploadFiles(files: seq<PickedFile>)
    | AddMessage(message: ChatMessage)
    | SendMentionEmails(fromDisplayName: string, mentions: seq<UserMention>, preview: string, link: string)
    | MessageSent(message: ChatMessage)
  {
    function Rank(): nat {
      match this
      case GetPageInfo => 0
      case UploadFiles(_) => 1
      case AddMessage(_) => 2
      case SendMentionEmails(_, _, _, _) => 3
      case MessageSent(_) => 4
    }
  }

  /** Each kind of call is made at most once, in the order page info, upload, store, mail, feed. */
  predicate Ordered(calls: seq<Call>) {
    forall i, j :: 0 <= i < j < |calls| ==> calls[i].Rank() < calls[j].Rank()
  }

  /** The send went through: the feed was told about the stored message. */
  predicate Succeeded(calls: seq<Call>) {
    calls != [] && calls[|calls| - 1].MessageSent?
  }

  /**
   * What `handleSend` learns from the outside: the page prop and the outcome
   * of each call. The store answers `result.data?.Id`, which is missing when
   * the answer has no data, so the id it gives may be absent.
   */
  datatype Services = Services(
    pageInfo: Option<PageInfo>,
    lookup: Step<PageInfo>,
    upload: Step<seq<FileAttachment>>,
    add: Step<Option<int>>,
    mail: Step<()>)

  /** The current user, the clock's reading and the page's deep link. */
  datatype Sender = Sender(author: UserMention, created: string, link: string)

  /** The calls made and the error shown afterwards. */
  datatype Outcome = Outcome(calls: seq<Call>, error: Option<string>)

  /** The message `handleSend` builds (lines 123-131), before the store gives it an id. */
  function Draft(text: string, mentions: seq<UserMention>, uploaded: seq<FileAttachment>,
                 info: PageInfo, who: Sender): ChatMessage {
    ChatMessage(None, Trim(text), who.created, who.author, mentions, uploaded,
                Some(info.pageUniqueId), Some(info.pageName))
  }

  /**
   * The last stage of `handleSend()` (lines 138-145): with the message stored
   * as `stored`, mail the mentioned people when there are any, then hand the
   * stored message to the feed. `c2` are the calls made so far.
   */
  function Notify(c2: seq<Call>, stored: ChatMessage, mentions: seq<UserMention>,
                  env: Services, who: Sender): (r: Outcome)
    ensures r.error == None <==> Succeeded(r.calls)
    ensures r.error.Some? ==> r.error.value != ""
  {
    var c3 := if mentions != []
              then c2 + [SendMentionEmails(who.author.displayName, mentions, Preview(stored.text), who.link)]
              else c2;
    if mentions != [] && env.mail.Threw? then
      Outcome(c3, Some(SendError(env.mail.message)))
    else
      Outcome(c3 + [MessageSent(stored)], None)
  }

  /** Lines 134-135: store the drafted message, which gives it its id, then notify. */
  function Store(c1: seq<Call>, message: ChatMessage, mentions: seq<UserMention>,
                 env: Services, who: Sender): (r: Outcome)
    ensures r.error == None <==> Succeeded(r.calls)
    ensures r.error.Some? ==> r.error.value != ""
  {
    var c2 := c1 + [AddMessage(message)];
    if env.add.Threw? then Outcome(c2, Some(SendError(env.add.message)))
    else Notify(c2, message.(id := env.add.value), mentions, env, who)
  }

  /** Lines 112-131: upload the staged files, if any, then draft the message and store it. */
  function Upload(c0: seq<Call>, text: string, files: seq<PickedFile>, mentions: seq<UserMention>,
                  info: PageInfo, env: Services, who: Sender): (r: Outcome)
    ensures r.error == None <==> Succeeded(r.calls)
    ensures r.error.Some? ==> r.error.value != ""
  {
    if files == [] then Store(c0, Draft(text, mentions, [], info, who), mentions, env, who)
    else
      var c1 := c0 + [UploadFiles(files)];
      if env.upload.Threw? then Outcome(c1, Some(SendError(env.upload.message)))
      else Store(c1, Draft(text, mentions, env.upload.value, info, who), mentions, env, who)
  }

  /**
   * `handleSend()` as a function of the composer's text, files and mentions
   * and of what the services answer: the validation (lines 101-104), then
   * page info, upload, store, mail and feed, stopping at the first call that
   * throws (lines 108-153).
   */
  function Send(text: string, files: seq<PickedFile>, mentions: seq<UserMention>,
                env: Services, who: Sender): (r: Outcome)
    ensures r.error == None <==> Succeeded(r.calls)
    ensures r.error.Some? ==> r.error.value != ""
  {
    if Trim(text) == "" && files == [] then Outcome([], Some(EmptyMessageError))
    else if env.pageInfo.Some? then Upload([], text, files, mentions, env.pageInfo.value, env, who)
    else if env.lookup.Threw? then Outcome([GetPageInfo], Some(SendError(env.lookup.message)))
    else Upload([GetPageInfo], text, files, mentions, env.lookup.value, env, who)
  }

  /** Nothing is called and the validation message is shown when there is nothing to send. */
  lemma SendRejectsEmpty(text: string, files: seq<PickedFile>, mentions: seq<UserMention>,
                         env: Services, who: Sender)
    requires AllSpace(text) && files == []
    ensures Send(text, files, mentions, env, who) == Outcome([], Some(EmptyMessageError))
  {
    TrimEmptyIffBlank(text);
  }

  /** Calls made after all calls of lower rank keep the order. */
  predicate Before(calls: seq<Call>, rank: nat) {
    calls == [] || calls[|calls| - 1].Rank() < rank
  }

  lemma OrderedSnoc(calls: seq<Call>, c: Call)
    requires Ordered(calls) && Before(calls, c.Rank())
    ensures Ordered(calls + [c])
  {
  }

  lemma NotifyOrdered(c2: seq<Call>, stored: ChatMessage, mentions: seq<UserMention>,
                      env: Services, who: Sender)
    requires Ordered(c2) && Before(c2, 3)
    ensures Ordered(Notify(c2, stored, mentions, env, who).calls)
  {
    var mail := SendMentionEmails(who.author.displayName, mentions, Preview(stored.text), who.link);
    if mentions != [] {
      OrderedSnoc(c2, mail);
      OrderedSnoc(c2 + [mail], MessageSent(stored));
    } else {
      OrderedSnoc(c2, MessageSent(stored));
    }
  }

  lemma StoreOrdered(c1: seq<Call>, message: ChatMessage, mentions: seq<UserMention>,
                     env: Services, who: Sender)
    requires Ordered(c1) && Before(c1, 2)
    ensures Ordered(Store(c1, message, mentions, env, who).calls)
  {
    OrderedSnoc(c1, AddMessage(message));
    if env.add.Done? {
      NotifyOrdered(c1 + [AddMessage(message)], message.(id := env.add.value), mentions, env, who);
    }
  }

  lemma UploadOrdered(c0: seq<Call>, text: string, files: seq<PickedFile>, mentions: seq<UserMention>,
                      info: PageInfo, env: Services, who: Sender)
    requires Ordered(c0) && Before(c0, 1)
    ensures Ordered(Upload(c0, text, files, mentions, info, env, who).calls)
  {
    if files == [] {
      StoreOrdered(c0, Draft(text, mentions, [], info, who), mentions, env, who);
    } else {
      OrderedSnoc(c0, UploadFiles(files));
      if env.upload.Done? {
        StoreOrdered(c0 + [UploadFiles(files)], Draft(text, mentions, env.upload.value, info, who), mentions, env, who);
      }
    }
  }

  /** Page info, upload, store, mail and feed are called in this order, each at most once. */
  lemma SendOrdered(text: string, files: seq<PickedFile>, mentions: seq<UserMention>,
                    env: Services, who: Sender)
    ensures Ordered(Send(text, files, mentions, env, who).calls)
  {
    if !(Trim(text) == "" && files == []) {
      if env.pageInfo.Some? {
        UploadOrdered([], text, files, mentions, env.pageInfo.value, env, who);
      } else if env.lookup.Done? {
        UploadOrdered([GetPageInfo], text, files, mentions, env.lookup.value, env, who);
      }
    }
  }

  /** The send reaches the feed exactly when there is something to send and no call throws. */
  lemma SendSucceedsIff(text: string, files: seq<PickedFile>, mentions: seq<UserMention>,
                        env: Services, who: Sender)
    ensures Succeeded(Send(text, files, mentions, env, who).calls) <==>
      (Trim(text) != "" || files != [])
      && (env.pageInfo.Some? || env.lookup.Done?)
      && (files == [] || env.upload.Done?)
      && env.add.Done?
      && (mentions == [] || env.mail.Done?)
  {
    if Trim(text) != "" || files != [] {
      SendReportsFailure(text, files, mentions, env, who);
    }
  }

  /** A failed send shows the message of the call that threw, or the generic one. */
  lemma SendReportsFailure(text: string, files: seq<PickedFile>, mentions: seq<UserMention>,
                           env: Services, who: Sender)
    requires Trim(text) != "" || files != []
    ensures var r := Send(text, files, mentions, env, who);
      if env.pageInfo.None? && env.lookup.Threw? then r.error == Some(SendError(env.lookup.message))
      else if files != [] && env.upload.Threw? then r.error == Some(SendError(env.upload.message))
      else if env.add.Threw? then r.error == Some(SendError(env.add.message))
      else if mentions != [] && env.mail.Threw? then r.error == Some(SendError(env.mail.message))
      else r.error == None
  {
  }

  /** The page `handleSend` works on: the page prop, else what `getPageInfo` answered. */
  function PageUsed(env: Services): Option<PageInfo> {
    if env.pageInfo.Some? then env.pageInfo
    else if env.lookup.Done? then Some(env.lookup.value)
    else None
  }

  /**
   * Every field of the message `handleSend` builds, whatever its id: the
   * trimmed text, the sender and the clock's reading, the mentions, the
   * uploaded attachments (none without staged files) and the page it works on.
   */
  predicate DraftFits(msg: ChatMessage, text: string, files: seq<PickedFile>, mentions: seq<UserMention>,
                      env: Services, who: Sender) {
    msg.text == Trim(text) && msg.author == who.author && msg.created == who.created
    && msg.mentions == mentions
    && (if files == [] then msg.attachments == [] else env.upload.Done? && msg.attachments == env.upload.value)
    && PageUsed(env).Some?
    && msg.pageUniqueId == Some(PageUsed(env).value.pageUniqueId)
    && msg.pageName == Some(PageUsed(env).value.pageName)
  }

  /** What a call made by `Send` is given. */
  predicate CallFits(c: Call, text: string, files: seq<PickedFile>, mentions: seq<UserMention>,
                     env: Services, who: Sender) {
    match c
    case GetPageInfo => env.pageInfo.None?
    case UploadFiles(fs) => fs == files && fs != []
    case AddMessage(msg) => msg.id.None? && DraftFits(msg, text, files, mentions, env, who)
    case SendMentionEmails(from, ms, preview, link) =>
      from == who.author.displayName && ms == mentions && ms != []
      && preview == Preview(Trim(text)) && link == who.link
    case MessageSent(msg) =>
      env.add.Done? && msg.id == env.add.value && DraftFits(msg, text, files, mentions, env, who)
  }

  predicate AllFit(calls: seq<Call>, text: string, files: seq<PickedFile>, mentions: seq<UserMention>,
                   env: Services, who: Sender) {
    forall i :: 0 <= i < |calls| ==> CallFits(calls[i], text, files, mentions, env, who)
  }

  lemma AllFitSnoc(calls: seq<Call>, c: Call, text: string, files: seq<PickedFile>,
                   mentions: seq<UserMention>, env: Services, who: Sender)
    requires AllFit(calls, text, files, mentions, env, who)
    requires CallFits(c, text, files, mentions, env, who)
    ensures AllFit(calls + [c], text, files, mentions, env, who)
  {
    forall i | 0 <= i < |calls + [c]|
      ensures CallFits((calls + [c])[i], text, files, mentions, env, who)
    {
      if i < |calls| {
        assert (calls + [c])[i] == calls[i];
      }
    }
  }

  lemma NotifyFits(c2: seq<Call>, stored: ChatMessage, text: string, files: seq<PickedFile>,
                   mentions: seq<UserMention>, env: Services, who: Sender)
    requires AllFit(c2, text, files, mentions, env, who)
    requires env.add.Done? && stored.id == env.add.value
    requires DraftFits(stored, text, files, mentions, env, who)
    ensures AllFit(Notify(c2, stored, mentions, env, who).calls, text, files, mentions, env, who)
  {
    var mail := SendMentionEmails(who.author.displayName, mentions, Preview(stored.text), who.link);
    if mentions != [] {
      AllFitSnoc(c2, mail, text, files, mentions, env, who);
      AllFitSnoc(c2 + [mail], MessageSent(stored), text, files, mentions, env, who);
    } else {
      AllFitSnoc(c2, MessageSent(stored), text, files, mentions, env, who);
    }
  }

  lemma StoreFits(c1: seq<Call>, message: ChatMessage, text: string, files: seq<PickedFile>,
                  mentions: seq<UserMention>, env: Services, who: Sender)
    requires AllFit(c1, text, files, mentions, env, who)
    requires CallFits(AddMessage(message), text, files, mentions, env, who)
    ensures AllFit(Store(c1, message, mentions, env, who).calls, text, files, mentions, env, who)
  {
    var c2 := c1 + [AddMessage(message)];
    AllFitSnoc(c1, AddMessage(message), text, files, mentions, env, who);
    if env.add.Done? {
      NotifyFits(c2, message.(id := env.add.value), text, files, mentions, env, who);
    }
  }

  lemma UploadFits(c0: seq<Call>, text: string, files: seq<PickedFile>, mentions: seq<UserMention>,
                   info: PageInfo, env: Services, who: Sender)
    requires AllFit(c0, text, files, mentions, env, who)
    requires PageUsed(env) == Some(info)
    ensures AllFit(Upload(c0, text, files, mentions, info, env, who).calls, text, files, mentions, env, who)
  {
    if files == [] {
      StoreFits(c0, Draft(text, mentions, [], info, who), text, files, mentions, env, who);
    } else {
      var c1 := c0 + [UploadFiles(files)];
      AllFitSnoc(c0, UploadFiles(files), text, files, mentions, env, who);
      if env.upload.Done? {
        StoreFits(c1, Draft(text, mentions, env.upload.value, info, who), text, files, mentions, env, who);
      }
    }
  }

  /**
   * What each call is given: the staged files; the drafted message with the
   * trimmed text, the sender, the mentions, the uploaded attachments and the
   * page it works on; the preview of the trimmed text; and, for the feed,
   * that same message with the id the store gave it.
   */
  lemma SendArguments(text: string, files: seq<PickedFile>, mentions: seq<UserMention>,
                      env: Services, who: Sender)
    ensures var calls := Send(text, files, mentions, env, who).calls;
      forall i :: 0 <= i < |calls| ==> CallFits(calls[i], text, files, mentions, env, who)
  {
    var r := Send(text, files, mentions, env, who);
    if Trim(text) == "" && files == [] {
      assert r.calls == [];
    } else if env.pageInfo.Some? {
      UploadFits([], text, files, mentions, env.pageInfo.value, env, who);
      assert r == Upload([], text, files, mentions, env.pageInfo.value, env, who);
    } else {
      assert AllFit([GetPageInfo], text, files, mentions, env, who);
      if env.lookup.Done? {
        UploadFits([GetPageInfo], text, files, mentions, env.lookup.value, env, who);
        assert r == Upload([GetPageInfo], text, files, mentions, env.lookup.value, env, who);
      } else {
        assert r.calls == [GetPageInfo];
      }
    }
    assert AllFit(r.calls, text, files, mentions, env, who);
  }

  /**
   * The body of `handleSend()` between reading the composer's state and
   * writing it back (lines 101-153): the validation, then the calls in order,
   * stopping at the first one that throws. Returns the calls made and the
   * error to show.
   */
  method SendSteps(draft: string, staged: seq<PickedFile>, mentioned: seq<UserMention>,
                   env: Services, who: Sender) returns (calls: seq<Call>, error: Option<string>)
    ensures Outcome(calls, error) == Send(draft, staged, mentioned, env, who)
  {
    ghost var outcome := Send(draft, staged, mentioned, env, who);
    calls := [];
    if Trim(draft) == "" && |staged| == 0 {
      error := Some(EmptyMessageError);
      return;
    }
    var info: PageInfo;
    if env.pageInfo.Some? {
      info := env.pageInfo.value;
    } else {
      calls := [GetPageInfo];
      if env.lookup.Threw? {
        error := Some(SendError(env.lookup.message));
        return;
      }
      info := env.lookup.value;
    }
    assert outcome == Upload(calls, draft, staged, mentioned, info, env, who);

    var uploaded: seq<FileAttachment> := [];
    if |staged| > 0 {
      calls := calls + [UploadFiles(staged)];
      if env.upload.Threw? {
        error := Some(SendError(env.upload.message));
        return;
      }
      uploaded := env.upload.value;
    }

    var message := Draft(draft, mentioned, uploaded, info, who);
    assert outcome == Store(calls, message, mentioned, env, who);
    calls := calls + [AddMessage(message)];
    if env.add.Threw? {
      error := Some(SendError(env.add.message));
      return;
    }
    message := message.(id := env.add.value);
    assert outcome == Notify(calls, message, mentioned, env, who);

    if |mentioned| > 0 {
      calls := calls + [SendMentionEmails(who.author.displayName, mentioned, Preview(message.text), who.link)];
      if env.mail.Threw? {
        error := Some(SendError(env.mail.message));
        return;
      }
    }

    calls := calls + [MessageSent(message)];
    error := None;
  }

  /** The state of the composer (`useState` hooks of `MessageInput`). */
  class Composer {
    var text: string
    var members: seq<UserMention>
    var mentions: seq<UserMention>
    var files: seq<PickedFile>
    var error: Option<string>
    var pickerOpen: bool
    var pickerQuery: string

    ghost predicate Valid()
      reads this
    {
      DistinctEmails(mentions)
    }

    /** The mounted composer, once `getSiteMembers` has answered (or failed, giving no members). */
    constructor (siteMembers: Step<seq<UserMention>>)
      ensures Valid()
      ensures text == "" && mentions == [] && files == [] && error == None
      ensures !pickerOpen && pickerQuery == ""
      ensures members == if siteMembers.Done? then siteMembers.value else []
    {
      text := "";
      members := if siteMembers.Done? then siteMembers.value else [];
      mentions := [];
      files := [];
      error := None;
      pickerOpen := false;
      pickerQuery := "";
    }

    /**
     * `onTextChange(_, v)`; `selectionStart` is the text area's caret, absent
     * when there is no text area.
     */
    method OnTextChange(v: Option<string>, selectionStart: Option<nat>)
      modifies this`text, this`pickerOpen, this`pickerQuery
      ensures text == v.GetOr("")
      ensures var token := TokenAtCaret(text, selectionStart.GetOr(|text|));
        (pickerOpen <==> StartsWith(token, "@"))
        && (pickerOpen ==> pickerQuery == token[1..])
        && (!pickerOpen ==> pickerQuery == "")
    {
      var value := v.GetOr("");
      text := value;
      var caret := selectionStart.GetOr(|value|);
      var token := TokenAtCaret(value, caret);
      if StartsWith(token, "@") {
        pickerQuery := token[1..];
        pickerOpen := true;
      } else {
        pickerOpen := false;
        pickerQuery := "";
      }
    }

    /**
     * `insertMentionAtCaret(m)`; `selectionStart` is absent when there is no
     * text area, and the caret the text area is moved to is returned.
     */
    method InsertMentionAtCaret(m: UserMention, selectionStart: Option<nat>) returns (newCaret: Option<nat>)
      requires Valid()
      modifies this`text, this`pickerOpen, this`pickerQuery, this`mentions
      ensures Valid()
      ensures selectionStart.None? ==>
        newCaret.None? && text == old(text) && mentions == old(mentions)
        && pickerOpen == old(pickerOpen) && pickerQuery == old(pickerQuery)
      ensures selectionStart.Some? ==>
        var edit := MentionSplice(old(text), selectionStart.value, m.displayName);
        text == edit.text && newCaret == Some(edit.caret) && !pickerOpen && pickerQuery == ""
        && mentions == AddIfNewEmail(old(mentions), m)
    {
      if selectionStart.None? {
        return None;
      }
      var edit := MentionSplice(text, selectionStart.value, m.displayName);
      text := edit.text;
      pickerOpen := false;
      pickerQuery := "";
      mentions := AddIfNewEmail(mentions, m);
      newCaret := Some(edit.caret);
    }

    /** `onFilesPicked`: all picked files are staged, unless one is over 5 MiB. */
    method OnFilesPicked(selected: seq<PickedFile>)
      modifies this`files, this`error
      ensures FirstOversized(selected).Some? ==>
        files == old(files) && error == Some(OversizedError(selected[FirstOversized(selected).value].name))
      ensures FirstOversized(selected).None? ==> files == old(files) + selected && error == old(error)
    {
      var invalid := FirstOversized(selected);
      if invalid.Some? {
        error := Some(OversizedError(selected[invalid.value].name));
        return;
      }
      files := files + selected;
    }

    /** `removeFile(name)` */
    method RemoveFile(name: string)
      modifies this`files
      ensures files == WithoutName(old(files), name)
    {
      files := WithoutName(files, name);
    }

    /**
     * `handleSend()`, with the services' answers in `env` and the sender's
     * details in `who`. Returns the calls made, in order.
     */
    method HandleSend(env: Services, who: Sender) returns (calls: seq<Call>)
      requires Valid()
      modifies this`text, this`mentions, this`files, this`error
      ensures Valid()
      ensures var r := Send(old(text), old(files), old(mentions), env, who);
        calls == r.calls && error == r.error
      ensures Succeeded(calls) ==> text == "" && mentions == [] && files == []
      ensures !Succeeded(calls) ==> unchanged(this`text, this`mentions, this`files)
    {
      var draft, staged, mentioned := text, files, mentions;
      // setSending(true) ... finally setSending(false): no other handler runs in between
      var shown;
      calls, shown := SendSteps(draft, staged, mentioned, env, who);
      error := shown;
      if Succeeded(calls) {
        text := "";
        mentions := [];
        files := [];
      }
    }
  }
}
