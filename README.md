# SPFxChat core in Dafny

A verified model of SPFxChat's logic. SPFxChat is a SharePoint Framework web part. It adds a per-page chat to a SharePoint page. Messages are rows of a "Chat Messages" list, keyed by the page. Attachments go to a per-page folder of the "Anexos dos Chats" library. Mentioned people get a Microsoft Graph mail. Settings such as the poll interval come from a "Chat Settings" list.

The model covers these parts:

- the allow-list HTML sanitizer;
- the feed, with its message list and id high-water mark, its load, its poll merge and the echo of a sent message;
- the composer, with `@`-mention detection, the mention splice, staged files, the send handler and suggestion filtering;
- mention highlighting in the message list;
- the SharePoint service: page info, page folder, site members, file upload and message rows;
- the settings lookup;
- the mention mail;
- the attachment label;
- the deep link to the page.

Each source file is one module:

- `rich_text.dfy`: `RichText`;
- `chat.dfy`: `Chat`;
- `message_input.dfy`: `MessageInput`;
- `message_list.dfy`: `MessageList`;
- `sharepoint_service.dfy`: `SharePointService`;
- `settings_service.dfy`: `SettingsService`;
- `graph_service.dfy`: `GraphService`;
- `attachment_item.dfy`: `AttachmentItem`;
- `page_helpers.dfy`: `PageHelpers`.

Shared modules:

- `Models` (`models.dfy`): the records of `src/models/IChatMessage.ts`.
- `Text` (`text.dfy`): the JavaScript string primitives the code relies on. These are `\s`, `trim`, `toLowerCase`, `split(/\s/)`, `join(" ")`, `replace(/\/$/, "")`, and decimal printing and `parseInt`.
- `UriEncoding` (`uri_encoding.dfy`): ECMAScript's `encodeURIComponent`, with a decoder it is proved against.
- `Wrappers` (`wrappers.dfy`): `Option`, `Step`, and a few sequence lemmas.

The model keeps each source file's form:

- Code that changes state step by step is imperative Dafny:
  - the feed (`Chat.Feed`), the composer (`MessageInput.Composer`) and the detached `<div>` the markup is parsed into (`RichText.Wrapper`) are classes whose methods update their fields;
  - `registerMessages`, the attribute-removal loop, both snapshot loops of the sanitizer, `highlightMentions`, the member collection of `getSiteMembers` and the upload loop of `uploadFiles` are methods with loops.
- Each method is proved against a specification function (`Chat.HighWater`, `RichText.SanitizedList`, `MessageList.Highlight`, `SharePointService.Collect`, `SharePointService.UploadRun`, ...). The properties the source promises are proved about those functions as lemmas.
- Pure expressions are functions.

Every call into SharePoint, Graph or the browser is an input, either the value it answers or the failure it throws. The same goes for a caret position, a clock reading and a parsed DOM tree. `Step<T>` (`Done(value)` or `Threw(message)`) and `SharePointService.Attempt<T>` (with a `status` and a `message`) carry those outcomes.

## Model

| member | source | states |
|---|---|---|
| `RichText.RemoveAttribute` | src/utils/richText.ts:39 | `removeAttribute` drops exactly the attributes of that name and leaves every other attribute's value as it was |
| `RichText.SetAttribute` | src/utils/richText.ts:49-50 | `setAttribute` makes the name read back as the value, changes no other name and adds nothing else |
| `RichText.KeepAllowed` | src/utils/richText.ts:36-41 | the kept attributes are exactly those whose lower-cased name is allowed for the tag |
| `RichText.KeepAllowedOne` | src/utils/richText.ts:37-41 | one attribute is kept exactly when its lower-cased name is allowed |
| `RichText.KeepAllowedAppend` | src/utils/richText.ts:37-41 | the filter works attribute by attribute: the kept attributes stay in their original order |
| `RichText.FilterAttributes` | src/utils/richText.ts:37-41 | the loop over the attribute snapshot, removing from the live list, ends with exactly the allow-listed attributes in their original order |
| `RichText.CleanAttributes` | src/utils/richText.ts:36-56 | only allowed attributes survive; tags other than A and SPAN keep none; an unsafe href is removed; a safe href is kept; SPAN keeps `data-mention`/`data-email`; nothing but `target="_blank"` and `rel="noopener noreferrer"` is added |
| `RichText.RewriteAttributes` | src/utils/richText.ts:36-56 | the step-by-step attribute rewrite (remove, test href, set target/rel, drop SPAN class) computes `CleanAttributes` |
| `RichText.CleanAttributesOfClean` | src/utils/richText.ts:36-56 | attributes that already satisfy the rules are left exactly as they are |
| `RichText.CleanAttributesIdempotent` | src/utils/richText.ts:36-56 | rewriting the attributes twice is rewriting them once |
| `RichText.SanitizedListAppend` | src/utils/richText.ts:58-64 | each child is rewritten in its own place: sanitizing distributes over concatenation of child lists |
| `RichText.UnwrapSplicesChildren` | src/utils/richText.ts:23-33 | an element whose tag is not allow-listed is replaced, at its position, by its children in their original order, untouched |
| `RichText.AllowedElementVisited` | src/utils/richText.ts:35-64 | an allowed element keeps its tag, gets its attributes rewritten and its children sanitized, in place |
| `RichText.VisitedLevelHasNoComments` | src/utils/richText.ts:58-64 | at a level the loop visits, every comment child is removed unless an unwrapped element lifts one up |
| `RichText.SanitizePreservesText` | src/utils/richText.ts:22-65 | no text node is removed or altered: the concatenated text content is unchanged |
| `RichText.AllowedOnlyBecomesSanitary` | src/utils/richText.ts:22-65 | when every element is allow-listed, the output has no comments and clean attributes at every depth |
| `RichText.SanitaryIsFixedPoint` | src/utils/richText.ts:22-65 | a fragment that already meets the rules is left unchanged |
| `RichText.IdempotentWhenAllowedOnly` | src/utils/richText.ts:22-65 | sanitizing twice equals sanitizing once when every element is allow-listed (the general claim is false, see Findings) |
| `RichText.SanitizeTwiceDiffers` | src/utils/richText.ts:29-31 | a comment inside an unwrapped element survives one pass and is removed by a second: the sanitizer is not idempotent |
| `RichText.LiftedElementEscapes` | src/utils/richText.ts:29-31 | an `<img onerror=...>` inside an unwrapped element is lifted out unvisited and survives with its handler |
| `RichText.FixedIsSanitary` | src/utils/richText.ts:22-65 | the corrected sanitizer (lifted children visited) leaves no comment, disallowed tag or unclean attribute at any depth |
| `RichText.FixedSanitaryIsFixedPoint` | src/utils/richText.ts:22-65 | the corrected sanitizer leaves a fragment that meets the rules unchanged |
| `RichText.FixedIdempotent` | src/utils/richText.ts:22-65 | the corrected sanitizer is idempotent on every fragment |
| `RichText.FixedAgreesWhenAllowedOnly` | src/utils/richText.ts:22-65 | the corrected sanitizer differs from the original only where something is unwrapped |
| `RichText.SnapshotStep` | src/utils/richText.ts:58-64 | one turn of a snapshot loop finds the snapshot's i-th child at the cursor of the live list and replaces it by what it sanitizes to |
| `RichText.SanitizeElement` | src/utils/richText.ts:22-65 | `sanitizeElement`, with its own loop over a snapshot of the children, leaves in the parent exactly `SanitizedNode(el)` |
| `RichText.Wrapper.constructor` | src/utils/richText.ts:75-76 | the detached div holds the parsed nodes |
| `RichText.Wrapper.Sanitize` | src/utils/richText.ts:78-84 | the wrapper loop over the pre-taken snapshot leaves `SanitizedList` of the old children |
| `RichText.SanitizeRichText` | src/utils/richText.ts:67-87 | empty input gives `""`; without a document the input comes back unchanged; otherwise the trimmed serialisation of the sanitized tree |
| `RichText.GetPlainTextFromHtml` | src/utils/richText.ts:89-99 | empty input gives `""`; without a document the input comes back unchanged; otherwise the text content of the parsed tree |
| `Chat.ResolveTheme` | src/webparts/chat/components/Chat.tsx:51-59 | every colour is set; no theme gives the defaults; a fully set theme is kept as it is |
| `Chat.ResolveThemeFieldwise` | src/webparts/chat/components/Chat.tsx:51-59 | for each of the seven colours: the given one when non-empty, else the default |
| `Chat.ResolveThemeIdempotent` | src/webparts/chat/components/Chat.tsx:51-59 | resolving a resolved theme changes nothing |
| `Chat.Clamp` | src/webparts/chat/components/Chat.tsx:115 | the result lies in [2000, 15000]; it equals n inside the range and the nearer bound outside it |
| `Chat.PollIntervalAfter` | src/webparts/chat/components/Chat.tsx:111-118 | the interval changes only when the setting is present and parses; a present, non-empty setting that `parseInt` accepts gives `Clamp` of the parsed number, in [2000, 15000] |
| `Chat.ResolvePollInterval` | src/webparts/chat/components/Chat.tsx:111-118 | the interval of a freshly loaded feed is always in [2000, 15000] |
| `Chat.PollIntervalReadsNumber` | src/webparts/chat/components/Chat.tsx:111-118 | a setting holding a printed number n gives min(15000, max(2000, n)) |
| `Chat.PollIntervalNegative` | src/webparts/chat/components/Chat.tsx:113-116 | a negative number gives 2000 |
| `Chat.PollIntervalDefault` | src/webparts/chat/components/Chat.tsx:111-118 | a missing, empty or non-numeric setting keeps 4000 |
| `Chat.HighWater` | src/webparts/chat/components/Chat.tsx:81-92 | the running maximum is at least the old mark, at least every numeric id, and either the old mark or one of the ids |
| `Chat.HighWaterMonotone` | src/webparts/chat/components/Chat.tsx:81-92 | a higher starting mark never gives a lower result |
| `Chat.NewItems` | src/webparts/chat/components/Chat.tsx:155-162 | a poll item is kept iff it has no id or its id is not held yet |
| `Chat.NewItemsAppend` | src/webparts/chat/components/Chat.tsx:160-162 | the filter works item by item in poll order |
| `Chat.NewItemsCount` | src/webparts/chat/components/Chat.tsx:155-162 | items with id k are all dropped when the feed holds k, otherwise all kept |
| `Chat.NewItemsDistinct` | src/webparts/chat/components/Chat.tsx:160-162 | filtering keeps distinct ids distinct |
| `Chat.Merge` | src/webparts/chat/components/Chat.tsx:151-164 | an empty feed takes the poll result; otherwise the feed stays a prefix and exactly the new poll items follow |
| `Chat.AppendSent` | src/webparts/chat/components/Chat.tsx:194-198 | the sent message is appended unless its numeric id is already held; nothing else changes |
| `Chat.NewItemsNoneNew` | src/webparts/chat/components/Chat.tsx:160-163 | when every poll item is already held, nothing is appended |
| `Chat.MergeSameBatchTwice` | src/webparts/chat/components/Chat.tsx:155-163 | merging the same batch of id-carrying items twice gives the same feed as merging it once |
| `Chat.MergeKeepsIdsDistinct` | src/webparts/chat/components/Chat.tsx:151-164 | the merge keeps the feed free of duplicate ids when the poll result is |
| `Chat.AppendSentKeepsIdsDistinct` | src/webparts/chat/components/Chat.tsx:192-198 | the local echo keeps ids distinct |
| `Chat.SentThenPolled` | src/webparts/chat/components/Chat.tsx:151-198 | a sent message with id k followed by a poll holding k leaves exactly one entry with id k |
| `Chat.PolledThenSent` | src/webparts/chat/components/Chat.tsx:151-198 | the same with the poll first and the echo second |
| `Chat.MergeCovered` | src/webparts/chat/components/Chat.tsx:150-164 | after a poll, the new mark still covers every id held |
| `Chat.Feed.constructor` | src/webparts/chat/components/Chat.tsx:71-79 | the feed mounts empty, loading, with mark 0 and interval 4000 |
| `Chat.Feed.RegisterMessages` | src/webparts/chat/components/Chat.tsx:81-92 | the loop leaves the mark at `HighWater` of the old mark and the items |
| `Chat.Feed.Load` | src/webparts/chat/components/Chat.tsx:94-130 | each failing step sets its error and leaves the rest; a full load sets the interval from the setting, takes the messages, raises the mark and enables polling; loading ends false |
| `Chat.Feed.Refresh` | src/webparts/chat/components/Chat.tsx:138-169 | no page, a failed poll or an empty poll changes nothing; otherwise the feed becomes `Merge` and the mark `HighWater`; distinct ids stay distinct |
| `Chat.Feed.HandleMessageSent` | src/webparts/chat/components/Chat.tsx:192-199 | the feed becomes `AppendSent`, the mark is raised, distinct ids stay distinct |
| `MessageInput.CaretIn` | src/webparts/chat/components/MessageInput.tsx:44 | `slice` clamps the caret to the text's length: a caret inside the text is kept, one past the end becomes the length |
| `MessageInput.TokenAtCaret` | src/webparts/chat/components/MessageInput.tsx:44-45 | the token is the longest white-space-free suffix of the text before the caret |
| `MessageInput.PickerFor` | src/webparts/chat/components/MessageInput.tsx:42-53 | the picker opens iff the token starts with `@`, with the rest of the token as query; otherwise it is closed with an empty query |
| `MessageInput.MentionSplice` | src/webparts/chat/components/MessageInput.tsx:59-80 | the text after the caret is kept, and the new caret sits right after `@displayName ` |
| `MessageInput.SpliceHead` | src/webparts/chat/components/MessageInput.tsx:63-67 | `tokens.join(" ")` without the last token, plus the spacer, is what is kept before the mention |
| `MessageInput.MentionReplacesToken` | src/webparts/chat/components/MessageInput.tsx:61-68 | the new text is the kept head, then `@displayName `, then the text after the caret: the token and the separator before it are dropped |
| `MessageInput.NoTokenAfterMention` | src/webparts/chat/components/MessageInput.tsx:66-80 | right after the insertion no token is being typed and the picker is closed |
| `Models.AddIfNewEmail` | src/webparts/chat/components/MessageInput.tsx:73-75 | a mention is appended iff no mention has its email case aside; emails stay distinct |
| `MessageInput.AddMentionTwice` | src/webparts/chat/components/MessageInput.tsx:73-75 | adding the same person twice, in any case of the email, adds them once |
| `MessageInput.FirstOversized` | src/webparts/chat/components/MessageInput.tsx:86 | `find` gives the first file over 5 MiB, or none when every file fits |
| `MessageInput.WithoutName` | src/webparts/chat/components/MessageInput.tsx:97 | exactly the files of other names remain |
| `MessageInput.WithoutNameAppend` | src/webparts/chat/components/MessageInput.tsx:97 | the removal keeps the order of the rest |
| `MessageInput.WithoutAbsentName` | src/webparts/chat/components/MessageInput.tsx:97 | removing a name no file carries changes nothing |
| `MessageInput.Matching` | src/webparts/chat/components/MessageInput.tsx:162-167 | a member is kept iff its lower-cased name or email contains the query |
| `MessageInput.MatchingOne` | src/webparts/chat/components/MessageInput.tsx:162-167 | a single member is kept exactly when its name or email contains the query |
| `MessageInput.MatchingAppend` | src/webparts/chat/components/MessageInput.tsx:162-167 | the filter works member by member: matches keep the members' order and their repeats |
| `MessageInput.FilteredSuggestions` | src/webparts/chat/components/MessageInput.tsx:158-169 | empty when closed; otherwise the first up-to-8 of the matching members (all members for an empty query), in member order |
| `MessageInput.PickerVisibleIffMatch` | src/webparts/chat/components/MentionPicker.tsx:11 | the picker shows iff it is open and some member matches the trimmed lower-cased query |
| `MessageInput.SendError` | src/webparts/chat/components/MessageInput.tsx:152 | the error shown is the thrown message, or the generic one when that is empty |
| `MessageInput.Preview` | src/webparts/chat/components/MessageInput.tsx:139 | the preview is the text itself up to 200 characters, and exactly its first 200 characters when it is longer |
| `MessageInput.Notify` | src/webparts/chat/components/MessageInput.tsx:137-145 | no error iff the feed was told; an error is never empty |
| `MessageInput.Store` | src/webparts/chat/components/MessageInput.tsx:133-135 | no error iff the feed was told; an error is never empty |
| `MessageInput.Upload` | src/webparts/chat/components/MessageInput.tsx:111-131 | no error iff the feed was told; an error is never empty |
| `MessageInput.Send` | src/webparts/chat/components/MessageInput.tsx:100-156 | no error iff the send reached the feed; an error is never empty |
| `MessageInput.SendRejectsEmpty` | src/webparts/chat/components/MessageInput.tsx:101-104 | a blank text with no files makes no call and shows the validation message |
| `MessageInput.SendOrdered` | src/webparts/chat/components/MessageInput.tsx:108-145 | page info, upload, store, mail and feed are called in this order, each at most once |
| `MessageInput.SendSucceedsIff` | src/webparts/chat/components/MessageInput.tsx:100-153 | the send reaches the feed iff there is something to send and no call that is made throws |
| `MessageInput.SendReportsFailure` | src/webparts/chat/components/MessageInput.tsx:151-153 | the error shown is that of the first call that threw |
| `MessageInput.SendArguments` | src/webparts/chat/components/MessageInput.tsx:112-145 | the upload gets the staged files; the store gets a message with no id, the trimmed text, the sender and date, the mentions, the uploaded attachments (none without files) and the page it works on; the mail gets the sender's name, the mentions, the 200-character preview and the link; the feed gets that same message with the id the store gave it, or none when the store's answer carried no id |
| `MessageInput.Composer.constructor` | src/webparts/chat/components/MessageInput.tsx:19-36 | the composer mounts empty, with the site members or none when their lookup fails |
| `MessageInput.Composer.OnTextChange` | src/webparts/chat/components/MessageInput.tsx:38-54 | the text is the new value; the picker opens iff the token at the caret starts with `@`, with the rest of the token as query |
| `MessageInput.Composer.InsertMentionAtCaret` | src/webparts/chat/components/MessageInput.tsx:56-82 | without a text area nothing changes; otherwise the text and caret are the splice, the picker closes and the mention is added unless its email is there |
| `MessageInput.Composer.OnFilesPicked` | src/webparts/chat/components/MessageInput.tsx:84-94 | a file over 5 MiB sets an error naming the first one and stages nothing; otherwise all picked files are appended in order |
| `MessageInput.Composer.RemoveFile` | src/webparts/chat/components/MessageInput.tsx:96-98 | the staged files become `WithoutName` |
| `MessageInput.SendSteps` | src/webparts/chat/components/MessageInput.tsx:100-153 | the validation and the calls, made in order and stopping at the first that throws, give exactly the calls and the error of `Send` |
| `MessageInput.Composer.HandleSend` | src/webparts/chat/components/MessageInput.tsx:100-156 | the calls and the error are those of `Send`; success resets text, mentions and files; failure leaves them untouched |
| `MessageList.AtOf` | src/webparts/chat/components/MessageList.tsx:14 | the `@` group starts at the match (empty first group) only at position 0 |
| `MessageList.TokenEnd` | src/webparts/chat/components/MessageList.tsx:14 | `\S+` runs to the next white space or the end |
| `MessageList.TokenEndNoSpace` | src/webparts/chat/components/MessageList.tsx:14 | the run holds no white space |
| `MessageList.FirstMatch` | src/webparts/chat/components/MessageList.tsx:17 | `exec` from `lastIndex` finds a real match at or after it |
| `MessageList.FirstMatchIsFirst` | src/webparts/chat/components/MessageList.tsx:17 | no match between `lastIndex` and the one found is skipped |
| `MessageList.MatchEnd` | src/webparts/chat/components/MessageList.tsx:22 | `lastIndex` after a match lies at white space or the end, past the `@` and one more character |
| `MessageList.HighlightFromUnfold` | src/webparts/chat/components/MessageList.tsx:17-23 | one loop turn pushes the match's parts and resumes at its end |
| `MessageList.HighlightMentions` | src/webparts/chat/components/MessageList.tsx:11-26 | the `while` loop over `exec` pushes exactly `Highlight(text)` |
| `MessageList.MatchPartsSpell` | src/webparts/chat/components/MessageList.tsx:19-21 | one match's parts spell the text up to the match's end, with a `" "` for an empty first group |
| `MessageList.HighlightFromSpells` | src/webparts/chat/components/MessageList.tsx:17-24 | the parts from any resume point spell the rest of the text |
| `MessageList.LeadOfFirstMatch` | src/webparts/chat/components/MessageList.tsx:20 | the first group is empty exactly for a token at position 0 |
| `MessageList.HighlightSpellsText` | src/webparts/chat/components/MessageList.tsx:17-24 | the parts spell the text, with one extra leading space when it starts with an `@` token |
| `MessageList.GapHasNoMatch` | src/webparts/chat/components/MessageList.tsx:19 | a stretch the search passes over holds no highlightable token |
| `MessageList.MatchPartsWellFormed` | src/webparts/chat/components/MessageList.tsx:19-21 | a match's parts are well placed and end with the bold token right after its white-space part; past the start of the text they begin with white space |
| `MessageList.WellFormedAppend` | src/webparts/chat/components/MessageList.tsx:17-24 | a match's parts followed by well-placed parts starting with white space are well placed |
| `MessageList.HighlightFromWellFormed` | src/webparts/chat/components/MessageList.tsx:17-24 | every part from a resume point is well placed |
| `MessageList.HighlightWellFormed` | src/webparts/chat/components/MessageList.tsx:14-24 | bold parts are whole `@` tokens at the start or after white space; plain parts are non-empty and hold no highlightable token |
| `SharePointService.PageName` | src/services/SharePointService.ts:62-64 | the page name is never empty |
| `SharePointService.GetPageInfo` | src/services/SharePointService.ts:46-70 | neither field is empty; a list item with a title and a unique id gives exactly those |
| `SharePointService.PageInfoWithoutListItem` | src/services/SharePointService.ts:56-69 | the key is the path, or the name when the path is empty; the workbench is named "Workbench"; otherwise the web title, the document title or "Página"; outside a browser the path is `/` |
| `SharePointService.WorkbenchIgnoresCase` | src/services/SharePointService.ts:61 | the workbench test does not depend on letter case |
| `SharePointService.JoinPathParts` | src/services/SharePointService.ts:79 | exactly one slash separates the folder from the name, and the name ends the path |
| `SharePointService.EnsurePageFolder` | src/services/SharePointService.ts:75-115 | a failed library lookup is passed on; otherwise the first call reads the target folder, an optional second creates it, an optional third reads it again; a success is the first or the last read |
| `SharePointService.EnsurePageFolderCases` | src/services/SharePointService.ts:81-114 | a found folder returns at once; 403 gives the access message; another non-404 status is rethrown; otherwise the folder is created (409 or "already exists" tolerated, 403 gives the creation message) and read again |
| `SharePointService.MemberOfFields` | src/services/SharePointService.ts:145-149 | the id is the numeric id printed in decimal, else the first non-empty of login name and email, else the title; a missing email is `""` |
| `SharePointService.GroupId` | src/services/SharePointService.ts:127-135 | a group is scanned iff its lookup answered with a truthy `Id` |
| `SharePointService.Members` | src/services/SharePointService.ts:145-149 | one member per user, in order |
| `SharePointService.Collect` | src/services/SharePointService.ts:142-151 | members already listed stay in order; distinct emails stay distinct |
| `SharePointService.AddGroupMembers` | src/services/SharePointService.ts:142-151 | the inner loop extends the list to `Collect` over the group's users |
| `SharePointService.ReadGroups` | src/services/SharePointService.ts:139-155 | the outer loop lists `Collect` over the users of every readable group; a failing group contributes nothing |
| `SharePointService.GetSiteMembers` | src/services/SharePointService.ts:122-158 | the result is `Collect` over the scanned users, Members group first; emails are distinct |
| `SharePointService.CollectCovers` | src/services/SharePointService.ts:142-151 | every member met has one listed with its email |
| `SharePointService.CollectFromFirst` | src/services/SharePointService.ts:142-151 | every listed member is the first met with its email |
| `SharePointService.CollectKeepsFirst` | src/services/SharePointService.ts:142-151 | every first-met member is listed |
| `SharePointService.SiteMembersFirstWins` | src/services/SharePointService.ts:139-155 | the listed members are exactly the first met with each email, with distinct emails |
| `SharePointService.ScannedBothGroups` | src/services/SharePointService.ts:124-141 | with both groups present, the Members group's users come before the Owners group's |
| `SharePointService.SiteMembersPreferMembersGroup` | src/services/SharePointService.ts:124-155 | a user first in the Members group with its email is listed even when an owner shares it |
| `SharePointService.Descriptors` | src/services/SharePointService.ts:174-175 | one descriptor per file |
| `SharePointService.DescriptorsAt` | src/services/SharePointService.ts:174-175 | descriptor i is that of file i |
| `SharePointService.DescriptorLocatesFile` | src/services/SharePointService.ts:174 | the URL is the folder less one trailing slash, `/`, then one path segment that decodes to the name; different names give different URLs |
| `SharePointService.FirstStop` | src/services/SharePointService.ts:167-185 | the first file over 5 MiB or refused by the store, or the end |
| `SharePointService.UploadFiles` | src/services/SharePointService.ts:162-187 | a folder failure is passed on with nothing sent; otherwise the files sent and the result are `UploadRun` |
| `SharePointService.UploadToFolder` | src/services/SharePointService.ts:167-186 | the loop sends files in order and ends with `UploadRun` |
| `SharePointService.UploadRunStops` | src/services/SharePointService.ts:167-185 | success iff no file stops the run, and then one descriptor per file at its URL; an oversized file is named and not sent; a refused file was sent; 403 gives the permission message |
| `SharePointService.AddMessageRow` | src/services/SharePointService.ts:195-202 | title, text, mentions and attachments are written as given; a missing page id or page name becomes `""` |
| `SharePointService.ToMessage` | src/services/SharePointService.ts:217-230 | id, text, date and page fields are read as stored; a missing or empty mentions or attachments column reads as `[]`; each author field (the printed `Id`, `Title`, `EMail`) is `""` when the author or that field is absent, and the stored value otherwise |
| `SharePointService.GetMessages` | src/services/SharePointService.ts:207-231 | one message per row, in row order |
| `SharePointService.GetMessagesAscending` | src/services/SharePointService.ts:215-230 | rows ascending by Id give messages whose ids all exist and ascend |
| `SharePointService.MessageRowRoundTrip` | src/services/SharePointService.ts:195-230 | a written message reads back with text, mentions and attachments unchanged, the server's id, date and author, and its page fields empty where missing |
| `SharePointService.AuthorDefaults` | src/services/SharePointService.ts:221-225 | a missing author reads as empty fields |
| `SharePointService.MessagesFilterBreaksOnQuote` | src/services/SharePointService.ts:214 | as written, the literal for `O'Brien` reads as `O` followed by stray text |
| `SharePointService.MessagesFilterEscapedReadsBack` | src/services/SharePointService.ts:214 | with quotes doubled, the literal reads back as exactly the page id |
| `SharePointService.MessagesFilterAgreesWithoutQuotes` | src/services/SharePointService.ts:214 | for ids without quotes the two filters are the same |
| `SettingsService.EscapeQuotes` | src/services/SettingsService.ts:52 | escaping never shortens, and only the empty string escapes to the empty string |
| `SettingsService.EscapeQuotesKeepsPlain` | src/services/SettingsService.ts:52 | a string without quotes is embedded unchanged |
| `SettingsService.ReadQuotedEscaped` | src/services/SettingsService.ts:52-56 | an escaped string closed by a quote reads back as itself, with the rest untouched |
| `SettingsService.PageFilterReadsBack` | src/services/SettingsService.ts:52-56 | the page filter compares the title with exactly the key and the page id with exactly the id, whatever quotes they hold |
| `SettingsService.GlobalFilterReadsBack` | src/services/SettingsService.ts:65-68 | the global filter compares the title with exactly the key |
| `SettingsService.FiltersDiffer` | src/services/SettingsService.ts:56-68 | the two queries never share a filter |
| `SettingsService.FirstValue` | src/services/SettingsService.ts:59-60 | a value exists iff the first item's Value is a string, and then it is that string |
| `SettingsService.GetSetting` | src/services/SettingsService.ts:45-79 | the page query is made iff the page id is non-empty, and it comes first; the global query, when made, is last |
| `SettingsService.GetSettingPrecedence` | src/services/SettingsService.ts:50-78 | a page item decides alone; otherwise the global item decides; no item or a throw gives none |
| `SettingsService.GetSettingValueFromItem` | src/services/SettingsService.ts:58-73 | a value is always the string Value of the first item some query returned |
| `GraphService.Recipients` | src/services/GraphService.ts:14 | one recipient per mention, in order, with its email and display name, not deduplicated |
| `GraphService.MentionMail` | src/services/GraphService.ts:12-30 | no request iff the mention list is missing or empty; otherwise one POST to `/v1.0/me/sendMail`, HTML, not saved to sent items |
| `GraphService.MentionMailAddressesEveryMention` | src/services/GraphService.ts:14 | every mentioned address receives the mail, and only they do |
| `GraphService.SubjectNamesSender` | src/services/GraphService.ts:17 | the subject is the fixed head, the sender's name, then the fixed tail |
| `GraphService.ContentEmbedsVerbatim` | src/services/GraphService.ts:20 | the preview and the link sit verbatim, unescaped, between the template's fixed parts |
| `AttachmentItem.MathRound` | src/webparts/chat/components/AttachmentItem.tsx:5 | `Math.round` gives the integer n with n <= x + 0.5 < n + 1 |
| `AttachmentItem.SizeKb` | src/webparts/chat/components/AttachmentItem.tsx:5 | the size shown is at least 1 |
| `AttachmentItem.RoundKbIsIntegerDivision` | src/webparts/chat/components/AttachmentItem.tsx:5 | on whole bytes, `Math.round(size / 1024)` is `(size + 512) div 1024` |
| `AttachmentItem.SizeKbInteger` | src/webparts/chat/components/AttachmentItem.tsx:5 | the size shown is 1 below 512 bytes, else `(size + 512) div 1024` |
| `AttachmentItem.SizeKbMonotone` | src/webparts/chat/components/AttachmentItem.tsx:5 | a bigger file never shows a smaller size |
| `AttachmentItem.SizeKbNearest` | src/webparts/chat/components/AttachmentItem.tsx:5 | from 512 bytes up, the size shown is within half a KB of the true size |
| `AttachmentItem.AttachmentLink` | src/webparts/chat/components/AttachmentItem.tsx:4-25 | the link points at the file's URL and is titled with its name |
| `AttachmentItem.LabelReadsBack` | src/webparts/chat/components/AttachmentItem.tsx:22 | the label is `[ficheiro] name - ` followed by a number that parses back as the size in KB |
| `PageHelpers.GetPageDeepLink` | src/utils/pageHelpers.ts:3-7 | the link is the base followed by the path, with nothing added or removed |
| `PageHelpers.DeepLinkParts` | src/utils/pageHelpers.ts:4-6 | the web URL is used verbatim when present, else the origin less one trailing slash; the server path when present, else the window path and query |
| `Text.TrimStart` | src/webparts/chat/components/MessageInput.tsx:101 | leading white space is removed and nothing else |
| `Text.TrimEnd` | src/webparts/chat/components/MessageInput.tsx:101 | trailing white space is removed and nothing else |
| `Text.TrimEmptyIffBlank` | src/webparts/chat/components/MessageInput.tsx:101 | `!text.trim()` holds exactly when every character is white space |
| `Text.TrimIsInnerSlice` | src/webparts/chat/components/MessageInput.tsx:124 | the trimmed text is a slice of the input that neither starts nor ends with white space |
| `Text.StripTrailingSlash` | src/utils/pageHelpers.ts:4 | at most one trailing slash is removed, and only when there is one |
| `Text.SplitOnSpace` | src/webparts/chat/components/MessageInput.tsx:63 | at least one token, none holding white space |
| `Text.JoinSplit` | src/webparts/chat/components/MessageInput.tsx:63-65 | splitting on white space and joining with spaces turns each white-space character into a space |
| `Text.LastTokenIsMaximalSuffix` | src/webparts/chat/components/MessageInput.tsx:45 | `pop()` gives the longest white-space-free suffix |
| `Text.JoinWithoutLastToken` | src/webparts/chat/components/MessageInput.tsx:63-65 | without its last token the split rejoins to the normalized text before the last separator |
| `Text.Lower` | src/webparts/chat/components/MessageInput.tsx:160 | lower-casing maps each character and keeps the length |
| `Text.NatToStringRoundTrip` | src/services/SharePointService.ts:146 | a number printed in decimal reads back as the number |
| `Text.ParseIntReadsPrinted` | src/webparts/chat/components/Chat.tsx:113 | `parseInt` reads back a printed number, whatever white space precedes it, an optional sign and whatever non-digit follows |
| `Text.ParseIntSkipsPad` | src/webparts/chat/components/Chat.tsx:113 | `parseInt` skips leading white space |
| `UriEncoding.Utf8` | src/services/SharePointService.ts:174 | a code point has one to four UTF-8 bytes |
| `UriEncoding.EncodeChar` | src/services/SharePointService.ts:174 | an unreserved character is kept as it is; any other becomes an encoding that starts with `%`; every output character can appear in an encoding |
| `UriEncoding.EncodeURIComponent` | src/services/SharePointService.ts:174 | the encoding is never shorter and holds only unreserved characters, `%` and hex digits |
| `UriEncoding.EncodedNameIsOneSegment` | src/services/SharePointService.ts:174 | an encoded name holds no `/`, `?` or `#` |
| `UriEncoding.DecodeEncodedChar` | src/services/SharePointService.ts:174 | one encoded character decodes back to itself |
| `UriEncoding.DecodeEncoded` | src/services/SharePointService.ts:174 | decoding undoes `encodeURIComponent` |
| `UriEncoding.EncodeInjective` | src/services/SharePointService.ts:174 | different names encode differently |

## Left out

- HTML parsing and serialisation (`innerHTML`) belong to the browser. They are function parameters of `RichText.SanitizeRichText` and `RichText.GetPlainTextFromHtml`, and the final `.trim()` applies to whatever the serialiser returns. The `el.remove()` branch for an element without a parent (richText.ts:25-27) never runs from either loop, because each loop only visits children.
- Every SharePoint, PnPjs and Graph call, the `AadHttpClient` POST and `JSON.parse`/`JSON.stringify` are inputs. They appear as the value answered or the failure thrown. The JSON columns are given as the values they serialise.
- `GraphService.init` only stores the HTTP client. `SharePointService.ensureAttachmentsLibrary` is the `libRoot` input of `SharePointService.EnsurePageFolder`. `SetupService.ts` and `SettingsService.ensureSettingsList` only provision lists through calls whose effects cannot be seen. None of these is modelled.
- React state machinery, `setInterval`/`clearInterval` polling, scrolling, the `setTimeout` refocus and async interleaving are not modelled. Each handler is one atomic step.
- Clocks and locale are inputs: the creation timestamp is `Sender.created`, and `toLocaleString` is not modelled.
- `MessageInput.Composer.HandleSend`: the `sending` flag, which only disables the button while the handler runs, is not modelled.
- `MessageInput.Composer.OnFilesPicked`: resetting the file input's value (line 93) is browser state and is not modelled.
- `Chat.Feed.Load`: a thrown value is always taken to be an `Error` carrying a message. The fallback text "Erro ao carregar mensagens" for non-`Error` throws is not modelled. The set-up calls `SetupService.init`, `GraphService.init` and `SetupService.ensureList` (lines 100-102) are not modelled one by one. Their failure is folded into the `pageInfo` outcome, which stands for every call up to and including `getPageInfo` (line 104).
- `Chat.Feed.Refresh`: the store ignores the `afterId` the poll passes. So a poll answer is taken to be the page's whole history, in the order the server returns it.
- `SharePointService.GetMessages`: the ascending order by `Id` is done by the server. It is an assumption (`AscendingIds`) of `SharePointService.GetMessagesAscending`, not something the model computes.
- `MessageInput.PickerVisibleIffMatch`: `MentionPicker.tsx` is modelled only through its visibility rule (line 11). Its rendering is not modelled.
- `Text.Lower`: `toLowerCase` is modelled for ASCII and Latin-1 upper-case letters only. Strings are sequences of Unicode scalar values, while JavaScript counts UTF-16 code units. So slice positions, `length` and the 200-character preview differ for characters outside the Basic Multilingual Plane, and lone surrogates cannot be represented.
- `AttachmentItem.RoundKbIsIntegerDivision`: file sizes are whole numbers of bytes (`nat`), so floating-point rounding of `size / 1024` is not modelled.
- `MessageInput.MentionReplacesToken`: `tokens.join(" ")` turns every white-space character before the token into a plain space. This is stated as it is, not as "the text before the token is kept".
- `SharePointService.MessageRowRoundTrip`: the `Title` column written by `addMessage` is never read back by `getMessages`, so the round trip says nothing about it.
- `RichText.CleanAttributes`: an attribute list is a sequence, so it can repeat a name, which a DOM element never does. `RichText.AttrsClean` checks only the first `href`, as `getAttribute` does. On a list with two `href` attributes, a clean result can still carry an unsafe second one. Lists with repeated names are not excluded by a precondition. Attribute names are also taken to be lower-case, as the HTML parser leaves them: the allow-list compares lower-cased names but the `href`, `target`, `rel` and `class` tests compare names exactly, so an upper-case `HREF` on an `A` element is kept unchecked and still meets `AttrsClean`.
- `src/models/IUserMention.ts` and `src/models/IFileAttachment.ts` are not part of this model. Their record shapes are inferred from how the code uses them.

## Findings

| source | as written | input that shows it | evidently intended | confidence | as-written member | corrected member |
|---|---|---|---|---|---|---|
| src/utils/richText.ts:29-31 | children lifted out of an unwrapped element are inserted before it in the parent, but the parent's loop iterates a snapshot taken beforehand, so they are never visited | `<font><img src=x onerror=alert(1)></font>` comes out as the `<img>` with its `onerror` attribute; `<font><!--c--></font>` keeps the comment | lifted children are sanitized too, so no disallowed element, comment or unsafe attribute survives and sanitizing is idempotent | not executed | `RichText.LiftedElementEscapes` | `RichText.FixedIsSanitary` |
| src/services/SharePointService.ts:214 | the page id is embedded in the OData string literal without doubling its single quotes, unlike `SettingsService.getSetting` | the page id `O'Brien` (a page without a list item is keyed by its path, which may hold a quote) makes the literal read as `O`, followed by stray text | quotes doubled as in SettingsService.ts:52-53, so the filter compares with exactly the page id | not executed | `SharePointService.MessagesFilterBreaksOnQuote` | `SharePointService.MessagesFilterEscapedReadsBack` |

The model of the sanitizer itself (`RichText.SanitizedList`, used by `RichText.Wrapper.Sanitize` and `RichText.SanitizeElement`) follows the code as written. The corrected definition is `RichText.SanitizedListFixed`. It is proved sanitary (`RichText.FixedIsSanitary`) and idempotent (`RichText.FixedIdempotent`), and it agrees with the original wherever nothing is unwrapped (`RichText.FixedAgreesWhenAllowedOnly`). Similarly, `SharePointService.MessagesFilter` models line 214 as written, and `SharePointService.MessagesFilterEscaped` is the corrected filter.
