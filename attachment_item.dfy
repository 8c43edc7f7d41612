/**
 * The attachment link of a message (`src/webparts/chat/components/AttachmentItem.tsx`):
 * a link to the stored file labelled with its name and its size in whole KB.
 */
module AttachmentItem {
  import opened Wrappers
  import opened Text
  import opened Models

  /** `Math.round(x)`: the nearest integer, halves rounded up. */
  function MathRound(x: real): (n: int)
    ensures n as real <= x + 0.5 < n as real + 1.0
  {
    (x + 0.5).Floor
  }

  /** Line 5: `Math.max(1, Math.round(size / 1024))`. */
  function SizeKb(size: nat): (k: int)
    ensures k >= 1
  {
    var rounded := MathRound(size as real / 1024.0);
    if rounded < 1 then 1 else rounded
  }

  /** On a whole number of bytes the rounding is integer arithmetic: halves go up. */
  lemma RoundKbIsIntegerDivision(size: nat)
    ensures MathRound(size as real / 1024.0) == (size + 512) / 1024
  {
    var q := (size + 512) / 1024;
    var r := (size + 512) % 1024;
    assert size + 512 == 1024 * q + r && 0 <= r < 1024;
    var x := size as real / 1024.0;
    assert x + 0.5 == (size + 512) as real / 1024.0;
    assert (size + 512) as real == 1024.0 * q as real + r as real;
    assert x + 0.5 == q as real + r as real / 1024.0;
    assert q as real <= x + 0.5 < q as real + 1.0;
  }

  /** The size shown is `max(1, floor((size + 512) / 1024))`. */
  lemma SizeKbInteger(size: nat)
    ensures SizeKb(size) == if size < 512 then 1 else (size + 512) / 1024
  {
    RoundKbIsIntegerDivision(size);
  }

  /** A bigger file never shows a smaller size. */
  lemma SizeKbMonotone(a: nat, b: nat)
    requires a <= b
    ensures SizeKb(a) <= SizeKb(b)
  {
    SizeKbInteger(a);
    SizeKbInteger(b);
  }

  /** The shown size is within half a KB of the true one, except that nothing shows below 1. */
  lemma SizeKbNearest(size: nat)
    ensures size >= 512 ==> 1024 * SizeKb(size) - 512 <= size < 1024 * SizeKb(size) + 512
  {
    SizeKbInteger(size);
  }

  /** What is rendered: the link target and the text of the link. */
  datatype Link = Link(href: string, target: string, rel: string, title: string, caption: string)

  /** Line 22: `[ficheiro] {name} - {sizeKb} KB`. */
  function Label(a: FileAttachment): string {
    "[ficheiro] " + a.name + " - " + NatToString(SizeKb(a.size)) + " KB"
  }

  /** Lines 4-25. */
  function AttachmentLink(a: FileAttachment): (l: Link)
    ensures l.href == a.serverRelativeUrl && l.title == a.name
  {
    Link(a.serverRelativeUrl, "_blank", "noreferrer", a.name, Label(a))
  }

  /**
   * The label names the file and shows a number that reads back as the size
   * in KB: after the name and `" - "` it parses as `SizeKb(size)`.
   */
  lemma LabelReadsBack(a: FileAttachment)
    ensures var l := Label(a);
      var head := "[ficheiro] " + a.name + " - ";
      |head| <= |l| && l[..|head|] == head
      && ParseInt(l[|head|..]) == Some(SizeKb(a.size))
  {
    var head := "[ficheiro] " + a.name + " - ";
    var l := Label(a);
    var k: nat := SizeKb(a.size);
    assert l == head + ("" + ("" + (NatToString(k) + " KB")));
    assert l[|head|..] == "" + ("" + (NatToString(k) + " KB"));
    ParseIntReadsPrinted("", "", k, " KB");
  }
}
