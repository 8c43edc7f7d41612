/**
 * The mention mail (`src/services/GraphService.ts`): `sendMentionEmails`
 * builds one Microsoft Graph `sendMail` request addressed to every mentioned
 * person and posts it once.
 */
module GraphService {
  import opened Wrappers
  import opened Models

  const SendMailUrl := "https://graph.microsoft.com" + "/v1.0/me/sendMail"

  /** `{ emailAddress: { address, name } }` */
  datatype Recipient = Recipient(address: string, name: string)

  /** The one POST made: its URL and the fields of its JSON body. */
  datatype MailRequest = MailRequest(
    url: string,
    subject: string,
    contentType: string,
    content: string,
    toRecipients: seq<Recipient>,
    saveToSentItems: string)

  const SubjectHead := "[Menção] "
  const SubjectTail := " mencionou-te no SharePoint"
  const ContentHead := "<p>Foste mencionado numa conversa:</p>" + "<blockquote>"
  const ContentMiddle := "</blockquote>" + "<p><a href=\""
  const ContentTail := "\">Abrir a conversa</a></p>"

  /** Line 17. */
  function Subject(fromDisplayName: string): string {
    SubjectHead + fromDisplayName + SubjectTail
  }

  /** Line 20: the preview and the link go into the template as they are, unescaped. */
  function Content(preview: string, url: string): string {
    ContentHead + preview + ContentMiddle + url + ContentTail
  }

  /** Line 14: one recipient per mention, in order, with no removal of repeats. */
  function Recipients(mentions: seq<UserMention>): (r: seq<Recipient>)
    ensures |r| == |mentions|
    ensures forall i :: 0 <= i < |r| ==> r[i] == Recipient(mentions[i].email, mentions[i].displayName)
  {
    seq(|mentions|, i requires 0 <= i < |mentions| => Recipient(mentions[i].email, mentions[i].displayName))
  }

  /**
   * `sendMentionEmails(fromDisplayName, mentions, messagePreview, messageUrl)`
   * (lines 12-30): no request for a missing or empty mention list, otherwise
   * the one request it posts.
   */
  function MentionMail(fromDisplayName: string, mentions: Option<seq<UserMention>>,
                       preview: string, url: string): (r: Option<MailRequest>)
    ensures r.None? <==> mentions.None? || mentions.value == []
    ensures r.Some? ==> r.value.url == SendMailUrl && r.value.saveToSentItems == "false"
                        && r.value.contentType == "HTML"
  {
    if mentions.None? || mentions.value == [] then None
    else
      Some(MailRequest(SendMailUrl, Subject(fromDisplayName), "HTML", Content(preview, url),
                       Recipients(mentions.value), "false"))
  }

  /** Every mentioned address receives the mail, and only they do, with the display name given. */
  lemma MentionMailAddressesEveryMention(fromDisplayName: string, mentions: seq<UserMention>,
                                         preview: string, url: string)
    requires mentions != []
    ensures var r := MentionMail(fromDisplayName, Some(mentions), preview, url);
      r.Some?
      && (forall m :: m in mentions ==> Recipient(m.email, m.displayName) in r.value.toRecipients)
      && (forall x :: x in r.value.toRecipients ==> exists m :: m in mentions && x == Recipient(m.email, m.displayName))
  {
    var rs := Recipients(mentions);
    forall m | m in mentions
      ensures Recipient(m.email, m.displayName) in rs
    {
      var i :| 0 <= i < |mentions| && mentions[i] == m;
      assert rs[i] == Recipient(m.email, m.displayName);
    }
    forall x | x in rs
      ensures exists m :: m in mentions && x == Recipient(m.email, m.displayName)
    {
      var i :| 0 <= i < |rs| && rs[i] == x;
      assert mentions[i] in mentions;
    }
  }

  /** The subject names the sender between its fixed head and tail. */
  lemma SubjectNamesSender(fromDisplayName: string)
    ensures var s := Subject(fromDisplayName);
      |s| == |SubjectHead| + |fromDisplayName| + |SubjectTail|
      && s[..|SubjectHead|] == SubjectHead
      && s[|SubjectHead|..|SubjectHead| + |fromDisplayName|] == fromDisplayName
      && s[|SubjectHead| + |fromDisplayName|..] == SubjectTail
  {
  }

  /**
   * The content holds the preview and then the link verbatim, each right
   * after its fixed part of the template, so whatever markup the preview
   * carries reaches the mail unescaped.
   */
  lemma ContentEmbedsVerbatim(preview: string, url: string)
    ensures var c := Content(preview, url);
      var p := |ContentHead|;
      var u := p + |preview| + |ContentMiddle|;
      |c| == u + |url| + |ContentTail|
      && c[..p] == ContentHead
      && c[p..p + |preview|] == preview
      && c[p + |preview|..u] == ContentMiddle
      && c[u..u + |url|] == url
      && c[u + |url|..] == ContentTail
  {
  }
}
