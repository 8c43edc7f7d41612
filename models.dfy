/**
 * The records exchanged between the chat's components: a mentioned user, an
 * uploaded attachment and a chat message (`src/models/IChatMessage.ts`).
 */
module Models {
  import opened Wrappers
  import opened Text

  /** A site member that can be mentioned, and the author snapshot of a message. */
  datatype UserMention = UserMention(id: string, displayName: string, email: string)

  /** An uploaded file: its name, where the file store serves it, its size in bytes. */
  datatype FileAttachment = FileAttachment(name: string, serverRelativeUrl: string, size: nat)

  /** One chat message; `id` is absent until the message store assigns it. */
  datatype ChatMessage = ChatMessage(
    id: Option<int>,
    text: string,
    created: string,
    author: UserMention,
    mentions: seq<UserMention>,
    attachments: seq<FileAttachment>,
    pageUniqueId: Option<string>,
    pageName: Option<string>)

  /** The page the chat belongs to (`IPageInfo`). */
  datatype PageInfo = PageInfo(pageName: string, pageUniqueId: string)

  /** A file picked in the browser (`File`): its name and size in bytes. */
  datatype PickedFile = PickedFile(name: string, size: nat)

  /** The 5 MiB cap both the composer and the upload apply to each file. */
  const MaxFileSize: nat := 5 * 1024 * 1024

  /** `Ficheiro ${name} excede 5MB`, the error both raise for a file over the cap. */
  function OversizedError(name: string): string {
    "Ficheiro " + name + " excede 5MB"
  }

  /** `x.email.toLowerCase() === m.email.toLowerCase()` */
  predicate SameEmail(x: UserMention, m: UserMention) {
    Lower(x.email) == Lower(m.email)
  }

  /** No two records share an email, case aside. */
  predicate DistinctEmails(ms: seq<UserMention>) {
    forall i, j :: 0 <= i < j < |ms| ==> !SameEmail(ms[i], ms[j])
  }

  predicate HasEmailOf(ms: seq<UserMention>, m: UserMention) {
    exists i :: 0 <= i < |ms| && SameEmail(ms[i], m)
  }

  /**
   * A record is appended unless one with the same email, case aside, is
   * already there: how the composer adds a mention and how the site members
   * are collected.
   */
  function AddIfNewEmail(ms: seq<UserMention>, m: UserMention): (r: seq<UserMention>)
    ensures r == ms || r == ms + [m]
    ensures r == ms <==> HasEmailOf(ms, m)
    ensures DistinctEmails(ms) ==> DistinctEmails(r)
  {
    if HasEmailOf(ms, m) then ms
    else
      var r := ms + [m];
      assert DistinctEmails(ms) ==> DistinctEmails(r) by {
        if DistinctEmails(ms) {
          forall i, j | 0 <= i < j < |r|
            ensures !SameEmail(r[i], r[j])
          {
            if j == |ms| {
              assert !SameEmail(ms[i], m);
            }
          }
        }
      }
      r
  }
}
