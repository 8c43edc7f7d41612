/**
 * The SharePoint data access of the chat (`src/services/SharePointService.ts`):
 * which page the chat belongs to, the page's attachments folder, the site
 * members that can be mentioned, the upload of attachments, and the mapping
 * of messages to and from the rows of the "Chat Messages" list. Every call
 * into SharePoint is an input: the answer it gives or the failure it throws.
 */
module SharePointService {
  import opened Wrappers
  import opened Text
  import opened Models
  import SettingsService
  import UriEncoding

  // ---------------------------------------------------------------------------
  // Failures
  // ---------------------------------------------------------------------------

  /** A thrown error as the code inspects it: `e?.status` and `e?.message`. */
  datatype Failure = Failure(status: Option<int>, message: Option<string>)

  /** `new Error(message)`: a failure the code raises itself, with no status. */
  function Raised(message: string): Failure {
    Failure(None, Some(message))
  }

  /** The answer of one awaited call: its value, or what it threw. */
  datatype Attempt<T> = Ok(value: T) | Err(failure: Failure)

  // ---------------------------------------------------------------------------
  // getPageInfo
  // ---------------------------------------------------------------------------

  /** What `getPageInfo` reads from the SharePoint page context; absent where the context lacks it. */
  datatype PageContext = PageContext(
    listItemTitle: Option<string>,
    listItemUniqueId: Option<string>,
    serverRequestPath: Option<string>,
    webTitle: Option<string>)

  /** The browser, when there is one: `location.pathname + location.search` and `document.title`. */
  datatype Browser = Browser(pathAndQuery: string, documentTitle: string)

  const DefaultPageName := "Página"
  const WorkbenchPageName := "Workbench"
  const WorkbenchMarker := "/workbench.aspx"

  /**
   * Line 61: `/\/workbench\.aspx/i.test(path)`. The pattern is ASCII, and
   * with the `i` flag an ASCII pattern character matches exactly its two
   * ASCII cases, so the test is a search in the lower-cased path.
   */
  predicate IsWorkbench(path: string) {
    Contains(Lower(path), WorkbenchMarker)
  }

  /** Lines 57-59: the server's request path, else the window's path and query, else `/`. */
  function PagePath(ctx: PageContext, browser: Option<Browser>): string {
    OrElse(ctx.serverRequestPath, if browser.Some? then browser.value.pathAndQuery else "/")
  }

  /** Lines 62-64. */
  function PageName(ctx: PageContext, browser: Option<Browser>, path: string): (r: string)
    ensures r != ""
  {
    var named :=
      if IsWorkbench(path) then WorkbenchPageName
      else OrElse(ctx.webTitle, if browser.Some? then browser.value.documentTitle else DefaultPageName);
    if named != "" then named else DefaultPageName
  }

  /**
   * `getPageInfo(context)` (lines 46-70): a page that is a list item is
   * named and keyed by that item; any other page is keyed by its path and
   * named after the workbench, the web or the document. Neither field is
   * ever empty.
   */
  function GetPageInfo(ctx: PageContext, browser: Option<Browser>): (r: PageInfo)
    ensures r.pageName != "" && r.pageUniqueId != ""
    ensures Truthy(ctx.listItemTitle) && Truthy(ctx.listItemUniqueId) ==>
      r == PageInfo(ctx.listItemTitle.value, ctx.listItemUniqueId.value)
  {
    if Truthy(ctx.listItemTitle) && Truthy(ctx.listItemUniqueId) then
      PageInfo(ctx.listItemTitle.value, ctx.listItemUniqueId.value)
    else
      var path := PagePath(ctx, browser);
      var name := PageName(ctx, browser, path);
      PageInfo(name, if path != "" then path else name)
  }

  /**
   * A page that is not a list item is keyed by its path whenever that is not
   * empty, and by its name otherwise; the workbench is always named
   * "Workbench", whatever the letter case of its URL; outside a browser and
   * without a server path the key is `/`.
   */
  lemma PageInfoWithoutListItem(ctx: PageContext, browser: Option<Browser>)
    requires !(Truthy(ctx.listItemTitle) && Truthy(ctx.listItemUniqueId))
    ensures var r := GetPageInfo(ctx, browser);
      var path := PagePath(ctx, browser);
      (path != "" ==> r.pageUniqueId == path)
      && (path == "" ==> r.pageUniqueId == r.pageName)
      && (IsWorkbench(path) ==> r.pageName == WorkbenchPageName)
      && (!IsWorkbench(path) && Truthy(ctx.webTitle) ==> r.pageName == ctx.webTitle.value)
      && (!IsWorkbench(path) && !Truthy(ctx.webTitle) && browser.None? ==> r.pageName == DefaultPageName)
      && (!Truthy(ctx.serverRequestPath) && browser.None? ==> r.pageUniqueId == "/")
  {
  }

  /** Whether a path is the workbench does not depend on its letter case. */
  lemma WorkbenchIgnoresCase(a: string, b: string)
    requires SameIgnoringCase(a, b)
    ensures IsWorkbench(a) <==> IsWorkbench(b)
  {
  }

  // ---------------------------------------------------------------------------
  // ensurePageFolder
  // ---------------------------------------------------------------------------

  const AttachmentsLibraryTitle := "Anexos dos Chats"

  /** `${folder.replace(/\/$/, "")}/${name}` (lines 79 and 174). */
  function JoinPath(folder: string, name: string): string {
    StripTrailingSlash(folder) + "/" + name
  }

  /**
   * Exactly one slash separates the folder from the name: the folder's own
   * trailing slash when it has one, else an added one; the name ends the
   * path as it is.
   */
  lemma JoinPathParts(folder: string, name: string)
    ensures var r := JoinPath(folder, name);
      (folder != [] && folder[|folder| - 1] == '/' ==> r == folder + name)
      && (folder == [] || folder[|folder| - 1] != '/' ==> r == folder + "/" + name)
      && |r| > |name| && r[|r| - |name|..] == name && r[|r| - |name| - 1] == '/'
  {
    var r := JoinPath(folder, name);
    var head := StripTrailingSlash(folder) + "/";
    assert r == head + name;
    assert r[|r| - |name|..] == name;
    assert r[|r| - |name| - 1] == head[|head| - 1];
  }

  /** The folder calls `ensurePageFolder` makes, in order. */
  datatype FolderCall =
    | GetFolder(url: string)
    | AddFolder(parent: string, name: string)

  datatype FolderRun = FolderRun(calls: seq<FolderCall>, result: Attempt<string>)

  /** `e?.status` is truthy. */
  predicate HasStatus(f: Failure) {
    f.status.Some? && f.status.value != 0
  }

  /** Line 102: `e?.status === 409 || /already exists/i.test(e?.message || "")`. */
  predicate AlreadyExists(f: Failure) {
    f.status == Some(409) || Contains(Lower(OrElse(f.message, "")), "already exists")
  }

  /** Lines 88-91. */
  function FolderAccessDenied(targetUrl: string): string {
    "Sem permissão para aceder à pasta \"" + targetUrl + "\". "
    + "Verifica se tens 'Edit' na biblioteca \"" + AttachmentsLibraryTitle + "\"."
  }

  /** Lines 104-107. */
  function FolderCreateDenied(pageName: string): string {
    "Sem permissão para criar a pasta \"" + pageName + "\" em \"" + AttachmentsLibraryTitle + "\". "
    + "Precisas de 'Edit'."
  }

  /**
   * `ensurePageFolder(context)` (lines 75-115), with the library's root
   * folder (or what finding or creating the library threw) and the answers
   * of the folder lookup, the folder creation and the second lookup.
   */
  function EnsurePageFolder(ctx: PageContext, browser: Option<Browser>, libRoot: Attempt<string>,
                            lookup: Attempt<string>, create: Option<Failure>, reread: Attempt<string>): (r: FolderRun)
    ensures libRoot.Err? ==> r == FolderRun([], libRoot)
    ensures libRoot.Ok? ==>
      var target := JoinPath(libRoot.value, GetPageInfo(ctx, browser).pageName);
      1 <= |r.calls| <= 3 && r.calls[0] == GetFolder(target)
      && (|r.calls| >= 2 ==> r.calls[1] == AddFolder(libRoot.value, GetPageInfo(ctx, browser).pageName))
      && (|r.calls| == 3 ==> r.calls[2] == GetFolder(target) && r.result == reread)
    ensures r.result.Ok? ==> (lookup.Ok? && r.result == lookup) || r.result == reread
  {
    if libRoot.Err? then FolderRun([], Err(libRoot.failure))
    else
      var pageName := GetPageInfo(ctx, browser).pageName;
      var root := libRoot.value;
      var target := JoinPath(root, pageName);
      if lookup.Ok? then FolderRun([GetFolder(target)], Ok(lookup.value))
      else if HasStatus(lookup.failure) && lookup.failure.status.value != 404 then
        FolderRun([GetFolder(target)],
                  Err(if lookup.failure.status.value == 403 then Raised(FolderAccessDenied(target)) else lookup.failure))
      else if create.Some? && !AlreadyExists(create.value) then
        FolderRun([GetFolder(target), AddFolder(root, pageName)],
                  Err(if create.value.status == Some(403) then Raised(FolderCreateDenied(pageName)) else create.value))
      else
        FolderRun([GetFolder(target), AddFolder(root, pageName), GetFolder(target)], reread)
  }

  /**
   * The branches of `ensurePageFolder`: a found folder is returned at once;
   * a lookup refused with 403 is reported with its own message and no
   * folder is created; any other status but 404 is passed on; a missing
   * folder is created, a creation refused because the folder already exists
   * is tolerated, and the folder is then read again.
   */
  lemma EnsurePageFolderCases(ctx: PageContext, browser: Option<Browser>, root: string,
                              lookup: Attempt<string>, create: Option<Failure>, reread: Attempt<string>)
    ensures var pageName := GetPageInfo(ctx, browser).pageName;
      var target := JoinPath(root, pageName);
      var r := EnsurePageFolder(ctx, browser, Ok(root), lookup, create, reread);
      (lookup.Ok? ==> r == FolderRun([GetFolder(target)], lookup))
      && (lookup.Err? && lookup.failure.status == Some(403) ==>
            r == FolderRun([GetFolder(target)], Err(Raised(FolderAccessDenied(target)))))
      && (lookup.Err? && HasStatus(lookup.failure) && lookup.failure.status.value !in {403, 404} ==>
            r == FolderRun([GetFolder(target)], lookup))
      && (lookup.Err? && !(HasStatus(lookup.failure) && lookup.failure.status.value != 404) ==>
            |r.calls| >= 2
            && (create.Some? && !AlreadyExists(create.value) ==>
                  r.calls == [GetFolder(target), AddFolder(root, pageName)]
                  && r.result == Err(if create.value.status == Some(403) then Raised(FolderCreateDenied(pageName))
                                     else create.value))
            && (create.None? || AlreadyExists(create.value) ==> |r.calls| == 3 && r.result == reread))
  {
    // One path per branch of the function.
    if lookup.Err? && !(HasStatus(lookup.failure) && lookup.failure.status.value != 404) {
      if create.Some? && !AlreadyExists(create.value) {
      } else {
      }
    }
  }

  // ---------------------------------------------------------------------------
  // getSiteMembers
  // ---------------------------------------------------------------------------

  /** A user of a site group as the code reads it: `Id`, `LoginName`, `Email` and `Title`. */
  datatype SiteUser = SiteUser(id: Option<nat>, loginName: Option<string>, email: Option<string>, title: string)

  /** Line 146: `u.Id?.toString() || u.LoginName || u.Email || u.Title`. */
  function MemberId(u: SiteUser): string {
    if u.id.Some? then NatToString(u.id.value) else OrElse(u.loginName, OrElse(u.email, u.title))
  }

  /** Lines 145-149: the member listed for a user. */
  function MemberOf(u: SiteUser): UserMention {
    UserMention(MemberId(u), u.title, OrElse(u.email, ""))
  }

  /**
   * A member's id is the user's numeric id printed in decimal, which reads
   * back as that number; without one it is the first non-empty of the
   * login name and the email, else the title. A missing email is listed as
   * the empty one.
   */
  lemma MemberOfFields(u: SiteUser)
    ensures var m := MemberOf(u);
      m.displayName == u.title
      && (u.email.Some? ==> m.email == u.email.value) && (u.email.None? ==> m.email == "")
      && (u.id.Some? ==> m.id != "" && (forall i :: 0 <= i < |m.id| ==> IsDigit(m.id[i]))
                         && DigitsValue(m.id) == u.id.value)
      && (u.id.None? && Truthy(u.loginName) ==> m.id == u.loginName.value)
      && (u.id.None? && !Truthy(u.loginName) && Truthy(u.email) ==> m.id == u.email.value)
      && (u.id.None? && !Truthy(u.loginName) && !Truthy(u.email) ==> m.id == u.title)
  {
    if u.id.Some? {
      NatToStringRoundTrip(u.id.value);
    }
  }

  /** Lines 127-135: a group is scanned when its lookup answers with a truthy `Id`. */
  function GroupId(group: Step<Option<int>>): (ids: seq<int>)
    ensures |ids| <= 1
    ensures ids != [] <==> group.Done? && group.value.Some? && group.value.value != 0
  {
    if group.Done? && group.value.Some? && group.value.value != 0 then [group.value.value] else []
  }

  /** The groups scanned: the Members group first, then the Owners group. */
  function GroupIds(memberGroup: Step<Option<int>>, ownerGroup: Step<Option<int>>): seq<int> {
    GroupId(memberGroup) + GroupId(ownerGroup)
  }

  /** Line 141: the users of a group, or none when reading them throws (lines 152-154). */
  function Readable(users: Step<seq<SiteUser>>): seq<SiteUser> {
    if users.Done? then users.value else []
  }

  /** The users met, group after group. */
  function Scanned(groups: seq<int>, usersOf: int -> Step<seq<SiteUser>>): seq<SiteUser> {
    if groups == [] then []
    else Scanned(groups[..|groups| - 1], usersOf) + Readable(usersOf(groups[|groups| - 1]))
  }

  /** The member of each user, in order. */
  function Members(users: seq<SiteUser>): (ms: seq<UserMention>)
    ensures |ms| == |users|
    ensures forall i :: 0 <= i < |users| ==> ms[i] == MemberOf(users[i])
  {
    seq(|users|, i requires 0 <= i < |users| => MemberOf(users[i]))
  }

  /**
   * The members listed after `acc` once the members `ms` have been met in
   * turn: one is listed unless a member with the same email, case aside,
   * already is. What was listed stays, in order, and emails stay distinct.
   */
  function Collect(acc: seq<UserMention>, ms: seq<UserMention>): (r: seq<UserMention>)
    ensures |acc| <= |r| && r[..|acc|] == acc
    ensures DistinctEmails(acc) ==> DistinctEmails(r)
  {
    if ms == [] then acc
    else AddIfNewEmail(Collect(acc, ms[..|ms| - 1]), ms[|ms| - 1])
  }

  lemma MembersSnoc(users: seq<SiteUser>, u: SiteUser)
    ensures Members(users + [u]) == Members(users) + [MemberOf(u)]
  {
    var a := Members(users + [u]);
    var b := Members(users) + [MemberOf(u)];
    forall i | 0 <= i < |a|
      ensures a[i] == b[i]
    {
      if i < |users| {
        assert (users + [u])[i] == users[i];
      }
    }
  }

  lemma CollectSnoc(acc: seq<UserMention>, ms: seq<UserMention>, m: UserMention)
    ensures Collect(acc, ms + [m]) == AddIfNewEmail(Collect(acc, ms), m)
  {
    assert (ms + [m])[..|ms|] == ms;
  }

  lemma CollectNext(met: seq<SiteUser>, users: seq<SiteUser>, k: nat)
    requires k < |users|
    ensures Collect([], Members(met + users[..k + 1]))
         == AddIfNewEmail(Collect([], Members(met + users[..k])), MemberOf(users[k]))
  {
    assert met + users[..k + 1] == (met + users[..k]) + [users[k]];
    MembersSnoc(met + users[..k], users[k]);
    CollectSnoc([], Members(met + users[..k]), MemberOf(users[k]));
  }

  lemma ScannedSnoc(groups: seq<int>, g: nat, usersOf: int -> Step<seq<SiteUser>>)
    requires g < |groups|
    ensures Scanned(groups[..g + 1], usersOf) == Scanned(groups[..g], usersOf) + Readable(usersOf(groups[g]))
  {
    assert groups[..g + 1][..g] == groups[..g];
  }

  /**
   * Lines 143-154: the users of one group read in turn, each listed unless
   * a member with the same email, case aside, already is.
   */
  method AddGroupMembers(results: seq<UserMention>, ghost met: seq<SiteUser>, users: seq<SiteUser>)
    returns (r: seq<UserMention>)
    requires results == Collect([], Members(met))
    ensures r == Collect([], Members(met + users))
  {
    r := results;
    var k := 0;
    assert met + users[..0] == met;
    while k < |users|
      invariant 0 <= k <= |users|
      invariant r == Collect([], Members(met + users[..k]))
    {
      var m := MemberOf(users[k]);
      CollectNext(met, users, k);
      ghost var next := AddIfNewEmail(r, m);
      if !HasEmailOf(r, m) {
        r := r + [m];
      }
      assert r == next;
      k := k + 1;
    }
    assert users[..k] == users;
  }

  /**
   * `getSiteMembers()` (lines 122-158), with the answers of the Members and
   * Owners group lookups and of reading each group's users.
   */
  method GetSiteMembers(memberGroup: Step<Option<int>>, ownerGroup: Step<Option<int>>,
                        usersOf: int -> Step<seq<SiteUser>>) returns (results: seq<UserMention>)
    ensures results == Collect([], Members(Scanned(GroupIds(memberGroup, ownerGroup), usersOf)))
    ensures DistinctEmails(results)
  {
    var groups: seq<int> := [];
    if memberGroup.Done? && memberGroup.value.Some? && memberGroup.value.value != 0 {
      groups := groups + [memberGroup.value.value];
    }
    if ownerGroup.Done? && ownerGroup.value.Some? && ownerGroup.value.value != 0 {
      groups := groups + [ownerGroup.value.value];
    }
    assert groups == GroupIds(memberGroup, ownerGroup);
    results := ReadGroups(groups, usersOf);
  }

  /** Lines 139-155: the groups' users read group after group, the first member with each email kept. */
  method ReadGroups(groups: seq<int>, usersOf: int -> Step<seq<SiteUser>>) returns (results: seq<UserMention>)
    ensures results == Collect([], Members(Scanned(groups, usersOf)))
  {
    results := [];
    var g := 0;
    while g < |groups|
      invariant 0 <= g <= |groups|
      invariant results == Collect([], Members(Scanned(groups[..g], usersOf)))
    {
      ScannedSnoc(groups, g, usersOf);
      ghost var met := Scanned(groups[..g], usersOf);
      var answer := usersOf(groups[g]);
      ghost var users := Readable(answer);
      if answer.Done? {
        results := AddGroupMembers(results, met, answer.value);
      } else {
        assert met + users == met;
      }
      assert results == Collect([], Members(met + users));
      g := g + 1;
    }
    assert groups[..g] == groups;
  }

  /** Every member met is represented: some listed member has its email, case aside. */
  lemma {:induction false} CollectCovers(acc: seq<UserMention>, ms: seq<UserMention>, i: nat)
    requires i < |ms|
    ensures HasEmailOf(Collect(acc, ms), ms[i])
  {
    var n := |ms| - 1;
    var init := ms[..n];
    var before := Collect(acc, init);
    var r := Collect(acc, ms);
    assert r[..|before|] == before;
    if i < n {
      CollectCovers(acc, init, i);
      assert init[i] == ms[i];
      var j :| 0 <= j < |before| && SameEmail(before[j], ms[i]);
      assert r[j] == before[j];
    } else if HasEmailOf(before, ms[n]) {
      assert r == before;
    } else {
      assert r[|before|] == ms[n];
    }
  }

  /** No member before position `i` shares the email of member `i`: it is the first met with it. */
  predicate FirstWithEmail(ms: seq<UserMention>, i: nat)
    requires i < |ms|
  {
    forall j :: 0 <= j < i ==> !SameEmail(ms[j], ms[i])
  }

  lemma FirstWithEmailPrefix(ms: seq<UserMention>, n: nat, i: nat)
    requires i < n <= |ms|
    ensures ms[..n][i] == ms[i]
    ensures FirstWithEmail(ms[..n], i) <==> FirstWithEmail(ms, i)
  {
    assert forall j :: 0 <= j <= i ==> ms[..n][j] == ms[j];
  }

  /** A member whose email none listed has is the first met with that email. */
  lemma FirstWhenNew(acc: seq<UserMention>, ms: seq<UserMention>)
    requires ms != []
    requires !HasEmailOf(Collect(acc, ms[..|ms| - 1]), ms[|ms| - 1])
    ensures FirstWithEmail(ms, |ms| - 1)
    ensures !HasEmailOf(acc, ms[|ms| - 1])
  {
    var n := |ms| - 1;
    var init := ms[..n];
    var before := Collect(acc, init);
    forall j | 0 <= j < n
      ensures !SameEmail(ms[j], ms[n])
    {
      CollectCovers(acc, init, j);
      assert ms[j] == init[j];
      var h :| 0 <= h < |before| && SameEmail(before[h], init[j]);
    }
  }

  /**
   * Each member listed after `acc` is the first met with its email, and
   * `acc` had no member with it.
   */
  lemma {:induction false} CollectFromFirst(acc: seq<UserMention>, ms: seq<UserMention>, k: nat)
    requires |acc| <= k < |Collect(acc, ms)|
    ensures !HasEmailOf(acc, Collect(acc, ms)[k])
    ensures exists i :: 0 <= i < |ms| && FirstWithEmail(ms, i) && Collect(acc, ms)[k] == ms[i]
  {
    var n := |ms| - 1;
    var init := ms[..n];
    var before := Collect(acc, init);
    var r := Collect(acc, ms);
    assert r[..|before|] == before;
    if k < |before| {
      CollectFromFirst(acc, init, k);
      var i :| 0 <= i < |init| && FirstWithEmail(init, i) && before[k] == init[i];
      FirstWithEmailPrefix(ms, n, i);
      assert r[k] == ms[i];
    } else {
      assert r != before && r[k] == ms[n];
      FirstWhenNew(acc, ms);
    }
  }

  /** Every member that is the first met with an email `acc` lacks is listed. */
  lemma {:induction false} CollectKeepsFirst(acc: seq<UserMention>, ms: seq<UserMention>, i: nat)
    requires i < |ms| && FirstWithEmail(ms, i) && !HasEmailOf(acc, ms[i])
    ensures ms[i] in Collect(acc, ms)[|acc|..]
  {
    var n := |ms| - 1;
    var init := ms[..n];
    var before := Collect(acc, init);
    var r := Collect(acc, ms);
    assert r == AddIfNewEmail(before, ms[n]);
    var k: nat;
    if i < n {
      FirstWithEmailPrefix(ms, n, i);
      CollectKeepsFirst(acc, init, i);
      k :| |acc| <= k < |before| && before[k] == ms[i];
      assert r[k] == before[k];
    } else {
      FirstIsNew(acc, ms);
      k := |before|;
      assert r == before + [ms[n]];
    }
    assert r[|acc|..][k - |acc|] == ms[i];
  }

  /** The last member, when it is the first met with its email and `acc` lacks it, is new. */
  lemma FirstIsNew(acc: seq<UserMention>, ms: seq<UserMention>)
    requires ms != [] && FirstWithEmail(ms, |ms| - 1) && !HasEmailOf(acc, ms[|ms| - 1])
    ensures !HasEmailOf(Collect(acc, ms[..|ms| - 1]), ms[|ms| - 1])
  {
    var n := |ms| - 1;
    var init := ms[..n];
    var before := Collect(acc, init);
    forall h | 0 <= h < |before|
      ensures !SameEmail(before[h], ms[n])
    {
      if h >= |acc| {
        CollectFromFirst(acc, init, h);
        var j :| 0 <= j < |init| && FirstWithEmail(init, j) && before[h] == init[j];
        assert init[j] == ms[j];
      } else {
        assert before[h] == acc[h];
      }
    }
  }

  /**
   * First occurrence wins, over everything the site groups answered: the
   * listed members are exactly the first member met with each email, and
   * no two share an email, case aside.
   */
  lemma SiteMembersFirstWins(ms: seq<UserMention>)
    ensures var r := Collect([], ms);
      DistinctEmails(r)
      && (forall k :: 0 <= k < |r| ==> exists i :: 0 <= i < |ms| && FirstWithEmail(ms, i) && r[k] == ms[i])
      && (forall i :: 0 <= i < |ms| && FirstWithEmail(ms, i) ==> ms[i] in r)
  {
    var r := Collect([], ms);
    assert r[0..] == r;
    forall k | 0 <= k < |r|
      ensures exists i :: 0 <= i < |ms| && FirstWithEmail(ms, i) && r[k] == ms[i]
    {
      CollectFromFirst([], ms, k);
    }
    forall i | 0 <= i < |ms| && FirstWithEmail(ms, i)
      ensures ms[i] in r
    {
      CollectKeepsFirst([], ms, i);
    }
  }

  /** The groups and the users scanned when both group lookups answer with a usable id. */
  lemma ScannedBothGroups(memberId: int, ownerId: int, usersOf: int -> Step<seq<SiteUser>>)
    requires memberId != 0 && ownerId != 0
    ensures GroupIds(Done(Some(memberId)), Done(Some(ownerId))) == [memberId, ownerId]
    ensures Scanned([memberId, ownerId], usersOf) == Readable(usersOf(memberId)) + Readable(usersOf(ownerId))
  {
    assert [memberId, ownerId][..1] == [memberId];
    assert [memberId][..0] == [];
    assert Scanned([memberId], usersOf) == Scanned([], usersOf) + Readable(usersOf(memberId));
  }

  /**
   * The Members group is scanned before the Owners group: a user of the
   * Members group that is the first there with its email is listed as that
   * user, even when an owner shares the email.
   */
  lemma SiteMembersPreferMembersGroup(memberId: int, ownerId: int, usersOf: int -> Step<seq<SiteUser>>, i: nat)
    requires memberId != 0 && ownerId != 0
    requires i < |Readable(usersOf(memberId))| && FirstWithEmail(Members(Readable(usersOf(memberId))), i)
    ensures MemberOf(Readable(usersOf(memberId))[i])
              in Collect([], Members(Scanned(GroupIds(Done(Some(memberId)), Done(Some(ownerId))), usersOf)))
  {
    var members := Members(Readable(usersOf(memberId)));
    var all := Members(Readable(usersOf(memberId)) + Readable(usersOf(ownerId)));
    ScannedBothGroups(memberId, ownerId, usersOf);
    assert all[..|members|] == members;
    FirstWithEmailPrefix(all, |members|, i);
    CollectKeepsFirst([], all, i);
    assert Collect([], all)[0..] == Collect([], all);
  }

  // ---------------------------------------------------------------------------
  // uploadFiles
  // ---------------------------------------------------------------------------

  /** Lines 174-175: what is recorded for a file stored in `folderUrl`. */
  function Descriptor(folderUrl: string, f: PickedFile): FileAttachment {
    FileAttachment(f.name, JoinPath(folderUrl, UriEncoding.EncodeURIComponent(f.name)), f.size)
  }

  /** One descriptor per file, in order. */
  function Descriptors(folderUrl: string, files: seq<PickedFile>): (ds: seq<FileAttachment>)
    ensures |ds| == |files|
  {
    if files == [] then [] else Descriptors(folderUrl, files[..|files| - 1]) + [Descriptor(folderUrl, files[|files| - 1])]
  }

  lemma {:induction false} DescriptorsAt(folderUrl: string, files: seq<PickedFile>, i: nat)
    requires i < |files|
    ensures Descriptors(folderUrl, files)[i] == Descriptor(folderUrl, files[i])
  {
    var n := |files| - 1;
    var init := Descriptors(folderUrl, files[..n]);
    assert Descriptors(folderUrl, files) == init + [Descriptor(folderUrl, files[n])];
    if i < n {
      DescriptorsAt(folderUrl, files[..n], i);
      assert files[..n][i] == files[i];
      assert (init + [Descriptor(folderUrl, files[n])])[i] == init[i];
    }
  }

  lemma DescriptorsNext(folderUrl: string, files: seq<PickedFile>, i: nat)
    requires i < |files|
    ensures Descriptors(folderUrl, files[..i + 1]) == Descriptors(folderUrl, files[..i]) + [Descriptor(folderUrl, files[i])]
  {
    assert files[..i + 1][..i] == files[..i];
  }

  /**
   * A descriptor's URL is the folder, less one trailing slash, then `/`, then
   * a single path segment that decodes to the file's name; files with
   * different names get different URLs.
   */
  lemma DescriptorLocatesFile(folderUrl: string, f: PickedFile, g: PickedFile)
    ensures var u := Descriptor(folderUrl, f).serverRelativeUrl;
      var n := |StripTrailingSlash(folderUrl)| + 1;
      n <= |u| && u[..n] == StripTrailingSlash(folderUrl) + "/"
      && (forall i :: n <= i < |u| ==> u[i] != '/')
      && UriEncoding.Decode(u[n..]) == Some(f.name)
    ensures f.name != g.name ==> Descriptor(folderUrl, f).serverRelativeUrl != Descriptor(folderUrl, g).serverRelativeUrl
  {
    var head := StripTrailingSlash(folderUrl) + "/";
    var seg := UriEncoding.EncodeURIComponent(f.name);
    var u := Descriptor(folderUrl, f).serverRelativeUrl;
    assert u == head + seg;
    assert u[..|head|] == head && u[|head|..] == seg;
    UriEncoding.EncodedNameIsOneSegment(f.name);
    UriEncoding.DecodeEncoded(f.name);
    if f.name != g.name {
      var segG := UriEncoding.EncodeURIComponent(g.name);
      if u == Descriptor(folderUrl, g).serverRelativeUrl {
        assert head + segG == u;
        assert segG == u[|head|..];
        UriEncoding.EncodeInjective(f.name, g.name);
      }
    }
  }

  /** Lines 178-181, line break and indentation included. */
  function UploadDenied(folderUrl: string): string {
    "Sem permissão para carregar ficheiros em \"" + folderUrl + "\".\n"
    + "          Verifica se tens 'Contribute/Edit' na biblioteca de documentos."
  }

  /** Lines 176-184: what a refused upload throws. */
  function UploadFailure(folderUrl: string, f: Failure): Failure {
    if f.status == Some(403) then Raised(UploadDenied(folderUrl)) else f
  }

  /** The upload stops at file `i`: it is over the cap, or the store refuses it. */
  predicate Stops(files: seq<PickedFile>, refused: nat -> Option<Failure>, i: nat)
    requires i < |files|
  {
    files[i].size > MaxFileSize || refused(i).Some?
  }

  /** The first file from `i` on at which the upload stops, or `|files|`. */
  function FirstStopFrom(files: seq<PickedFile>, refused: nat -> Option<Failure>, i: nat): (k: nat)
    requires i <= |files|
    ensures i <= k <= |files|
    ensures forall j :: i <= j < k ==> !Stops(files, refused, j)
    ensures k < |files| ==> Stops(files, refused, k)
    decreases |files| - i
  {
    if i == |files| || Stops(files, refused, i) then i else FirstStopFrom(files, refused, i + 1)
  }

  /** The upload stops at `i` when it gets there: every earlier file goes through. */
  lemma FirstStopAt(files: seq<PickedFile>, refused: nat -> Option<Failure>, i: nat)
    requires i < |files| && Stops(files, refused, i)
    requires forall j :: 0 <= j < i ==> !Stops(files, refused, j)
    ensures FirstStop(files, refused) == i
  {
  }

  function FirstStop(files: seq<PickedFile>, refused: nat -> Option<Failure>): (k: nat)
    ensures k <= |files|
    ensures forall j :: 0 <= j < k ==> !Stops(files, refused, j)
    ensures k < |files| ==> Stops(files, refused, k)
  {
    FirstStopFrom(files, refused, 0)
  }

  /**
   * What uploading `files` to `folderUrl` does: the files handed to the
   * store and the result. The files go in order up to the first that is
   * over the cap, which is named and not sent, or the first the store
   * refuses; with neither, there is one descriptor per file, in order.
   */
  function UploadRun(folderUrl: string, files: seq<PickedFile>, refused: nat -> Option<Failure>)
    : (seq<PickedFile>, Attempt<seq<FileAttachment>>)
  {
    var k := FirstStop(files, refused);
    if k == |files| then (files, Ok(Descriptors(folderUrl, files)))
    else if files[k].size > MaxFileSize then (files[..k], Err(Raised(OversizedError(files[k].name))))
    else (files[..k + 1], Err(UploadFailure(folderUrl, refused(k).value)))
  }

  /**
   * `uploadFiles(context, files)` (lines 162-187), with the page folder (or
   * what `ensurePageFolder` threw) and, for the `i`-th upload, the failure
   * the store throws, if any. `sent` are the files handed to the store.
   */
  method UploadFiles(folder: Attempt<string>, files: seq<PickedFile>, refused: nat -> Option<Failure>)
    returns (sent: seq<PickedFile>, result: Attempt<seq<FileAttachment>>)
    ensures folder.Err? ==> sent == [] && result == Err(folder.failure)
    ensures folder.Ok? ==> (sent, result) == UploadRun(folder.value, files, refused)
  {
    if folder.Err? {
      return [], Err(folder.failure);
    }
    sent, result := UploadToFolder(folder.value, files, refused);
  }

  /** Lines 169-186: the files sent one by one to the page folder at `folderUrl`. */
  method UploadToFolder(folderUrl: string, files: seq<PickedFile>, refused: nat -> Option<Failure>)
    returns (sent: seq<PickedFile>, result: Attempt<seq<FileAttachment>>)
    ensures (sent, result) == UploadRun(folderUrl, files, refused)
  {
    sent := [];
    var uploads: seq<FileAttachment> := [];
    var i := 0;
    while i < |files|
      invariant i <= FirstStop(files, refused)
      invariant sent == files[..i]
      invariant uploads == Descriptors(folderUrl, files[..i])
    {
      var f := files[i];
      if f.size > MaxFileSize {
        UploadRunAt(folderUrl, files, refused, i);
        return sent, Err(Raised(OversizedError(f.name)));
      }
      PrefixSnoc(files, i);
      sent := sent + [f];
      var failure := refused(i);
      if failure.Some? {
        UploadRunAt(folderUrl, files, refused, i);
        return sent, Err(UploadFailure(folderUrl, failure.value));
      }
      UploadRunPast(files, refused, i);
      DescriptorsNext(folderUrl, files, i);
      uploads := uploads + [Descriptor(folderUrl, f)];
      i := i + 1;
    }
    UploadRunAll(folderUrl, files, refused, i);
    result := Ok(uploads);
  }

  /** When the upload gets to a file it stops at, that file is the first stop. */
  lemma UploadRunAt(folderUrl: string, files: seq<PickedFile>, refused: nat -> Option<Failure>, i: nat)
    requires i < |files| && i <= FirstStop(files, refused) && Stops(files, refused, i)
    ensures UploadRun(folderUrl, files, refused)
         == if files[i].size > MaxFileSize then (files[..i], Err(Raised(OversizedError(files[i].name))))
            else (files[..i + 1], Err(UploadFailure(folderUrl, refused(i).value)))
  {
  }

  /** A file it does not stop at takes the upload on to the next one. */
  lemma UploadRunPast(files: seq<PickedFile>, refused: nat -> Option<Failure>, i: nat)
    requires i < |files| && i <= FirstStop(files, refused) && !Stops(files, refused, i)
    ensures i + 1 <= FirstStop(files, refused)
  {
  }

  /** Having gone through every file, the upload describes them all. */
  lemma UploadRunAll(folderUrl: string, files: seq<PickedFile>, refused: nat -> Option<Failure>, i: nat)
    requires i == |files| && i <= FirstStop(files, refused)
    ensures UploadRun(folderUrl, files, refused) == (files[..i], Ok(Descriptors(folderUrl, files[..i])))
  {
    assert files[..i] == files;
  }

  /**
   * The upload as the source promises it: nothing after the file it stops
   * at is sent; a file over the cap stops it before being sent and is named
   * in the error; a refused file has been sent; the files before the stop
   * were all sent, in order, and a run without a stop describes each file
   * with its name and size at its own URL.
   */
  lemma UploadRunStops(folderUrl: string, files: seq<PickedFile>, refused: nat -> Option<Failure>)
    ensures var k := FirstStop(files, refused);
      forall j :: 0 <= j < k ==> files[j].size <= MaxFileSize && refused(j).None?
    ensures var run := UploadRun(folderUrl, files, refused);
      run.1.Ok? <==> FirstStop(files, refused) == |files|
    ensures var run := UploadRun(folderUrl, files, refused);
      run.1.Ok? ==> run.0 == files && |run.1.value| == |files|
                    && forall j :: 0 <= j < |files| ==>
                         run.1.value[j] == FileAttachment(files[j].name,
                           JoinPath(folderUrl, UriEncoding.EncodeURIComponent(files[j].name)), files[j].size)
    ensures var run := UploadRun(folderUrl, files, refused);
      var k := FirstStop(files, refused);
      k < |files| && files[k].size > MaxFileSize ==>
        run.0 == files[..k] && run.1 == Err(Raised(OversizedError(files[k].name)))
    ensures var run := UploadRun(folderUrl, files, refused);
      var k := FirstStop(files, refused);
      k < |files| && files[k].size <= MaxFileSize ==>
        run.0 == files[..k + 1] && refused(k).Some?
        && run.1 == Err(if refused(k).value.status == Some(403) then Raised(UploadDenied(folderUrl))
                        else refused(k).value)
  {
    var k := FirstStop(files, refused);
    forall j | 0 <= j < k
      ensures files[j].size <= MaxFileSize && refused(j).None?
    {
      assert !Stops(files, refused, j);
    }
    if k == |files| {
      forall j | 0 <= j < |files|
        ensures Descriptors(folderUrl, files)[j] == Descriptor(folderUrl, files[j])
      {
        DescriptorsAt(folderUrl, files, j);
      }
    }
  }

  // ---------------------------------------------------------------------------
  // addMessage and getMessages
  // ---------------------------------------------------------------------------

  /**
   * The columns `addMessage` writes (lines 195-202). The two JSON columns
   * are given as the values they serialise.
   */
  datatype MessageRow = MessageRow(
    title: string,
    message: string,
    mentions: seq<UserMention>,
    attachments: seq<FileAttachment>,
    pageUniqueId: string,
    pageName: string)

  /** Lines 195-202: a missing page id or page name is written as the empty string. */
  function AddMessageRow(msg: ChatMessage): (row: MessageRow)
    ensures row.title == msg.author.displayName && row.message == msg.text
    ensures row.mentions == msg.mentions && row.attachments == msg.attachments
    ensures msg.pageUniqueId.Some? ==> row.pageUniqueId == msg.pageUniqueId.value
    ensures msg.pageUniqueId.None? ==> row.pageUniqueId == ""
    ensures msg.pageName.Some? ==> row.pageName == msg.pageName.value
    ensures msg.pageName.None? ==> row.pageName == ""
  {
    MessageRow(msg.author.displayName, msg.text, msg.mentions, msg.attachments,
               OrElse(msg.pageUniqueId, ""), OrElse(msg.pageName, ""))
  }

  /** The expanded `Author` lookup of a row: `Id`, `Title` and `EMail`, each possibly absent. */
  datatype AuthorField = AuthorField(id: Option<nat>, title: Option<string>, email: Option<string>)

  /**
   * A row as `getMessages` reads it. A JSON column whose text is missing or
   * empty is `None`; otherwise it is the value its text parses to.
   */
  datatype ListItem = ListItem(
    id: int,
    message: string,
    created: string,
    author: Option<AuthorField>,
    mentionsJson: Option<seq<UserMention>>,
    attachmentsJson: Option<seq<FileAttachment>>,
    pageUniqueId: Option<string>,
    pageName: Option<string>)

  /** Lines 221-225: each author field falls back to `""` when absent (`??`, so an empty value stays). */
  function AuthorOf(author: Option<AuthorField>): UserMention {
    if author.None? then UserMention("", "", "")
    else
      UserMention(if author.value.id.Some? then NatToString(author.value.id.value) else "",
                  author.value.title.GetOr(""), author.value.email.GetOr(""))
  }

  /** Lines 217-230: one row as a chat message; a missing JSON column reads as `[]`. */
  function ToMessage(item: ListItem): (m: ChatMessage)
    ensures m.id == Some(item.id) && m.text == item.message && m.created == item.created
    ensures m.pageUniqueId == item.pageUniqueId && m.pageName == item.pageName
    ensures m.mentions == (if item.mentionsJson.Some? then item.mentionsJson.value else [])
    ensures m.attachments == (if item.attachmentsJson.Some? then item.attachmentsJson.value else [])
    ensures m.author.id
         == if item.author.Some? && item.author.value.id.Some? then NatToString(item.author.value.id.value) else ""
    ensures m.author.displayName
         == if item.author.Some? && item.author.value.title.Some? then item.author.value.title.value else ""
    ensures m.author.email
         == if item.author.Some? && item.author.value.email.Some? then item.author.value.email.value else ""
  {
    ChatMessage(Some(item.id), item.message, item.created, AuthorOf(item.author),
                item.mentionsJson.GetOr([]), item.attachmentsJson.GetOr([]),
                item.pageUniqueId, item.pageName)
  }

  /**
   * `getMessages(pageUniqueId)` (lines 207-231), with the rows the list
   * query returns, which the server orders by `Id`, ascending (line 215).
   */
  function GetMessages(items: seq<ListItem>): (ms: seq<ChatMessage>)
    ensures |ms| == |items|
    ensures forall i :: 0 <= i < |items| ==> ms[i] == ToMessage(items[i])
  {
    seq(|items|, i requires 0 <= i < |items| => ToMessage(items[i]))
  }

  predicate AscendingIds(items: seq<ListItem>) {
    forall i, j :: 0 <= i < j < |items| ==> items[i].id < items[j].id
  }

  /** Rows in ascending `Id` order give messages that all carry an id, in ascending order. */
  lemma GetMessagesAscending(items: seq<ListItem>)
    requires AscendingIds(items)
    ensures var ms := GetMessages(items);
      (forall i :: 0 <= i < |ms| ==> ms[i].id.Some?)
      && (forall i, j :: 0 <= i < j < |ms| ==> ms[i].id.value < ms[j].id.value)
  {
  }

  /** The row the list keeps for a written row: the server adds the `Id`, the `Created` date and the `Author`. */
  function Stored(row: MessageRow, id: int, created: string, author: Option<AuthorField>): ListItem {
    ListItem(id, row.message, created, author, Some(row.mentions), Some(row.attachments),
             Some(row.pageUniqueId), Some(row.pageName))
  }

  /**
   * A message written by `addMessage` reads back from its row with its text,
   * mentions and attachments unchanged, the id, date and author the server
   * recorded (the written `Title` is never read back) and the page fields
   * present, empty where they were missing.
   */
  lemma MessageRowRoundTrip(msg: ChatMessage, id: int, created: string, author: Option<AuthorField>)
    ensures ToMessage(Stored(AddMessageRow(msg), id, created, author))
      == msg.(id := Some(id), created := created, author := AuthorOf(author),
              pageUniqueId := Some(msg.pageUniqueId.GetOr("")), pageName := Some(msg.pageName.GetOr("")))
  {
  }

  /** Without an expanded author, or with one whose fields are all absent, the author is empty. */
  lemma AuthorDefaults(author: Option<AuthorField>)
    requires author.None? || author.value == AuthorField(None, None, None)
    ensures AuthorOf(author) == UserMention("", "", "")
  {
  }

  // ---------------------------------------------------------------------------
  // The page filter of getMessages
  // ---------------------------------------------------------------------------

  const MessagesFilterHead := "PageUniqueId eq '"

  /** Line 214 as written: the page id is embedded in the literal as it is. */
  function MessagesFilter(pageUniqueId: string): string {
    MessagesFilterHead + pageUniqueId + "'"
  }

  /** The filter with the page id's quotes doubled, as `getSetting` embeds its values. */
  function MessagesFilterEscaped(pageUniqueId: string): string {
    MessagesFilterHead + SettingsService.EscapeQuotes(pageUniqueId) + "'"
  }

  /**
   * As written, a page id with a quote ends the literal early: for the path
   * `O'Brien` the literal reads as `O`, followed by text that is not part of
   * any literal, so the query is not the page's.
   */
  lemma MessagesFilterBreaksOnQuote()
    ensures var f := MessagesFilter("O'Brien");
      |MessagesFilterHead| <= |f|
      && SettingsService.ReadQuoted(f[|MessagesFilterHead|..]) == Some(("O", "Brien'"))
  {
    var f := MessagesFilter("O'Brien");
    assert f == MessagesFilterHead + ("O" + "'" + "Brien'");
    SettingsService.EscapeQuotesKeepsPlain("O");
    SettingsService.ReadQuotedEscaped("O", "Brien'");
  }

  /** With the quotes doubled, the literal reads back as exactly the page id and ends the filter. */
  lemma MessagesFilterEscapedReadsBack(pageUniqueId: string)
    ensures var f := MessagesFilterEscaped(pageUniqueId);
      |MessagesFilterHead| <= |f| && f[..|MessagesFilterHead|] == MessagesFilterHead
      && SettingsService.ReadQuoted(f[|MessagesFilterHead|..]) == Some((pageUniqueId, ""))
  {
    var f := MessagesFilterEscaped(pageUniqueId);
    var e := SettingsService.EscapeQuotes(pageUniqueId);
    assert f == MessagesFilterHead + (e + "'" + "");
    SettingsService.ReadQuotedEscaped(pageUniqueId, "");
  }

  /** For a page id without quotes, which covers the list items' unique ids, the two filters agree. */
  lemma MessagesFilterAgreesWithoutQuotes(pageUniqueId: string)
    requires forall i :: 0 <= i < |pageUniqueId| ==> pageUniqueId[i] != '\''
    ensures MessagesFilter(pageUniqueId) == MessagesFilterEscaped(pageUniqueId)
  {
    SettingsService.EscapeQuotesKeepsPlain(pageUniqueId);
  }
}
