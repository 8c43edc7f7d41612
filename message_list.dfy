/**
 * Mention highlighting in the message list
 * (`src/webparts/chat/components/MessageList.tsx`): `highlightMentions`
 * runs the global regular expression `/(^|\s)(@\S+)/g` over a message's text
 * and splits it into plain parts and bold `@name` parts.
 */
module MessageList {
  import opened Wrappers
  import opened Text

  /** One piece of the rendered text: a plain string or a `<strong>` element. */
  datatype Part = Plain(content: string) | Bold(content: string)

  /** `@\S+` can start at `k`: an `@` followed by at least one non-white character. */
  predicate BoldAt(text: string, k: nat) {
    k + 1 < |text| && text[k] == '@' && !IsSpace(text[k + 1])
  }

  /**
   * `(^|\s)(@\S+)` matches at `i`: either at the very start with an empty
   * first group (`^` only matches there, the expression has no `m` flag), or
   * with a white-space character as the first group.
   */
  predicate MatchAt(text: string, i: nat) {
    (i == 0 && BoldAt(text, 0)) || (i < |text| && IsSpace(text[i]) && BoldAt(text, i + 1))
  }

  /** Where the second group starts in a match at `i` (`^` is tried before `\s`). */
  function AtOf(text: string, i: nat): (at: nat)
    requires MatchAt(text, i)
    ensures at == i || at == i + 1
    ensures BoldAt(text, at)
    ensures at == i <==> i == 0 && BoldAt(text, 0)
  {
    if i == 0 && BoldAt(text, 0) then 0 else i + 1
  }

  /** The end of the greedy `\S+` run that starts at `j`. */
  function TokenEnd(text: string, j: nat): (e: nat)
    requires j <= |text|
    ensures j <= e <= |text|
    ensures e == |text| || IsSpace(text[e])
    decreases |text| - j
  {
    if j == |text| || IsSpace(text[j]) then j else TokenEnd(text, j + 1)
  }

  /** `\S+` is greedy: the run holds no white space and stops at white space or the end. */
  lemma {:induction false} TokenEndNoSpace(text: string, j: nat)
    requires j <= |text|
    ensures NoSpace(text[j..TokenEnd(text, j)])
    decreases |text| - j
  {
    if j < |text| && !IsSpace(text[j]) {
      var e := TokenEnd(text, j + 1);
      TokenEndNoSpace(text, j + 1);
      assert text[j..e] == [text[j]] + text[j + 1..e];
    }
  }

  /** `regex.exec(text)` with `regex.lastIndex == pos`: the index of the first match at or after `pos`. */
  function FirstMatch(text: string, pos: nat): (r: Option<nat>)
    requires pos <= |text|
    ensures r.Some? ==> pos <= r.value < |text| && MatchAt(text, r.value)
    decreases |text| - pos
  {
    if pos == |text| then None
    else if MatchAt(text, pos) then Some(pos)
    else FirstMatch(text, pos + 1)
  }

  /** No match is skipped: the search finds the first one, or there is none. */
  lemma {:induction false} FirstMatchIsFirst(text: string, pos: nat)
    requires pos <= |text|
    ensures var r := FirstMatch(text, pos);
      forall j :: pos <= j < (if r.Some? then r.value else |text|) ==> !MatchAt(text, j)
    decreases |text| - pos
  {
    if pos < |text| && !MatchAt(text, pos) {
      FirstMatchIsFirst(text, pos + 1);
    }
  }

  /** The end of a match at `i`, which is where the next search starts (`regex.lastIndex`). */
  function MatchEnd(text: string, i: nat): (e: nat)
    requires MatchAt(text, i)
    ensures AtOf(text, i) + 2 <= e <= |text|
    ensures e == |text| || IsSpace(text[e])
  {
    TokenEnd(text, AtOf(text, i) + 1)
  }

  /** The three parts one match contributes, after the gap before it. */
  function MatchParts(text: string, pos: nat, start: nat): seq<Part>
    requires pos <= start && MatchAt(text, start)
  {
    var at := AtOf(text, start);
    var gap := if start > pos then [Plain(text[pos..start])] else [];
    gap + [Plain(if at == start then " " else text[start..at])] + [Bold(text[at..MatchEnd(text, start)])]
  }

  /** The parts `highlightMentions` pushes once `lastIndex` has reached `pos`. */
  function HighlightFrom(text: string, pos: nat): seq<Part>
    requires pos <= |text|
    decreases |text| - pos
  {
    match FirstMatch(text, pos)
    case None => if pos < |text| then [Plain(text[pos..])] else []
    case Some(start) => MatchParts(text, pos, start) + HighlightFrom(text, MatchEnd(text, start))
  }

  /** One round of the loop: the parts of the first match, then the rest of the search. */
  lemma HighlightFromUnfold(text: string, pos: nat)
    requires pos <= |text| && FirstMatch(text, pos).Some?
    ensures var start := FirstMatch(text, pos).value;
      HighlightFrom(text, pos) == MatchParts(text, pos, start) + HighlightFrom(text, MatchEnd(text, start))
  {
  }

  lemma HighlightFromStep(text: string, pos: nat, done: seq<Part>, parts: seq<Part>)
    requires pos <= |text| && FirstMatch(text, pos).Some?
    requires done + HighlightFrom(text, pos) == Highlight(text)
    requires parts == done + MatchParts(text, pos, FirstMatch(text, pos).value)
    ensures parts + HighlightFrom(text, MatchEnd(text, FirstMatch(text, pos).value)) == Highlight(text)
  {
    var start := FirstMatch(text, pos).value;
    var head := MatchParts(text, pos, start);
    var rest := HighlightFrom(text, MatchEnd(text, start));
    HighlightFromUnfold(text, pos);
    AppendAssoc(done, head, rest);
  }

  lemma HighlightFromEnd(text: string, pos: nat)
    requires pos <= |text| && FirstMatch(text, pos).None?
    ensures HighlightFrom(text, pos) == if pos < |text| then [Plain(text[pos..])] else []
  {
  }

  function Highlight(text: string): seq<Part> {
    HighlightFrom(text, 0)
  }

  /** `highlightMentions(text)` (lines 11-26). */
  method HighlightMentions(text: string) returns (parts: seq<Part>)
    ensures parts == Highlight(text)
  {
    parts := [];
    var lastIndex := 0;
    var m := FirstMatch(text, lastIndex);
    assert parts + HighlightFrom(text, lastIndex) == Highlight(text);
    while m.Some?
      invariant lastIndex <= |text|
      invariant m == FirstMatch(text, lastIndex)
      invariant parts + HighlightFrom(text, lastIndex) == Highlight(text)
      decreases |text| - lastIndex
    {
      var start := m.value;
      ghost var before := parts;
      ghost var gap := if start > lastIndex then [Plain(text[lastIndex..start])] else [];
      if start > lastIndex {
        parts := parts + [Plain(text[lastIndex..start])];
      }
      assert parts == before + gap;
      var at := AtOf(text, start);
      var lead := Plain(if at == start then " " else text[start..at]);
      parts := parts + [lead];
      var end := MatchEnd(text, start);
      parts := parts + [Bold(text[at..end])];
      AppendAssoc(before, gap, [lead]);
      AppendAssoc(before, gap + [lead], [Bold(text[at..end])]);
      HighlightFromStep(text, lastIndex, before, parts);
      lastIndex := end;
      m := FirstMatch(text, lastIndex);
    }
    HighlightFromEnd(text, lastIndex);
    if lastIndex < |text| {
      parts := parts + [Plain(text[lastIndex..])];
    }
  }

  // ---------------------------------------------------------------------------
  // What the parts spell
  // ---------------------------------------------------------------------------

  /** The rendered characters, bold contents included. */
  function Flatten(parts: seq<Part>): string {
    if parts == [] then "" else parts[0].content + Flatten(parts[1..])
  }

  lemma FlattenSingle(p: Part)
    ensures Flatten([p]) == p.content
  {
    assert [p][1..] == [];
  }

  lemma {:induction false} FlattenAppend(a: seq<Part>, b: seq<Part>)
    ensures Flatten(a + b) == Flatten(a) + Flatten(b)
  {
    if a == [] {
      assert a + b == b;
    } else {
      assert (a + b)[1..] == a[1..] + b;
      FlattenAppend(a[1..], b);
    }
  }

  lemma FlattenTwo(p: Part, q: Part)
    ensures Flatten([p, q]) == p.content + q.content
  {
    assert [p, q][1..] == [q];
    FlattenSingle(q);
  }

  lemma FlattenThree(p: Part, q: Part, r: Part)
    ensures Flatten([p, q, r]) == p.content + q.content + r.content
  {
    assert [p, q, r][1..] == [q, r];
    FlattenTwo(q, r);
  }

  lemma MatchPartsSpell(text: string, pos: nat, start: nat)
    requires pos <= start && MatchAt(text, start)
    ensures Flatten(MatchParts(text, pos, start))
      == (if AtOf(text, start) == start then " " else "") + text[pos..MatchEnd(text, start)]
  {
    var at := AtOf(text, start);
    var e := MatchEnd(text, start);
    var g1 := Plain(if at == start then " " else text[start..at]);
    var bold := Bold(text[at..e]);
    if start > pos {
      var gap := Plain(text[pos..start]);
      assert MatchParts(text, pos, start) == [gap, g1, bold];
      FlattenThree(gap, g1, bold);
    } else {
      assert MatchParts(text, pos, start) == [g1, bold];
      FlattenTwo(g1, bold);
    }
    SliceSplit(text, pos, start, e);
    if at != start {
      SliceSplit(text, start, at, e);
      AppendAssoc(text[pos..start], text[start..at], text[at..e]);
    }
  }

  lemma {:induction false} HighlightFromSpells(text: string, pos: nat)
    requires pos <= |text|
    ensures Flatten(HighlightFrom(text, pos))
      == (if pos == 0 && BoldAt(text, 0) then " " else "") + text[pos..]
    decreases |text| - pos
  {
    match FirstMatch(text, pos)
    case None =>
      HighlightFromEnd(text, pos);
      if pos < |text| {
        FlattenSingle(Plain(text[pos..]));
      }
      if pos == 0 {
        FirstMatchIsFirst(text, pos);
        assert !MatchAt(text, 0);
      }
    case Some(start) =>
      var e := MatchEnd(text, start);
      HighlightFromSpells(text, e);
      SpellsStep(text, pos, start);
  }

  /** The first group is empty exactly when the search starts at 0 and the text starts with a token. */
  lemma LeadOfFirstMatch(text: string, pos: nat, start: nat)
    requires pos <= |text| && FirstMatch(text, pos) == Some(start)
    ensures AtOf(text, start) == start <==> pos == 0 && BoldAt(text, 0)
  {
    if pos == 0 && BoldAt(text, 0) {
      assert MatchAt(text, 0);
    }
  }

  lemma SpellsStep(text: string, pos: nat, start: nat)
    requires pos <= |text| && FirstMatch(text, pos) == Some(start)
    requires Flatten(HighlightFrom(text, MatchEnd(text, start))) == text[MatchEnd(text, start)..]
    ensures Flatten(HighlightFrom(text, pos))
      == (if pos == 0 && BoldAt(text, 0) then " " else "") + text[pos..]
  {
    var e := MatchEnd(text, start);
    var lead := if AtOf(text, start) == start then " " else "";
    LeadOfFirstMatch(text, pos, start);
    var head := MatchParts(text, pos, start);
    var rest := HighlightFrom(text, e);
    HighlightFromUnfold(text, pos);
    MatchPartsSpell(text, pos, start);
    SpellsJoin(head, rest, lead, text[pos..e], text[e..]);
    SuffixSplit(text, pos, e);
  }

  lemma SpellsJoin(head: seq<Part>, rest: seq<Part>, lead: string, a: string, b: string)
    requires Flatten(head) == lead + a && Flatten(rest) == b
    ensures Flatten(head + rest) == lead + (a + b)
  {
    FlattenAppend(head, rest);
    AppendAssoc(lead, a, b);
  }

  /**
   * The parts spell the text back (lines 17-24), except that a text starting
   * with a highlightable `@` token gains one leading space: the empty first
   * group is pushed as `" "` (line 20).
   */
  lemma HighlightSpellsText(text: string)
    ensures Flatten(Highlight(text)) == if BoldAt(text, 0) then " " + text else text
  {
    HighlightFromSpells(text, 0);
    assert text[0..] == text;
  }

  // ---------------------------------------------------------------------------
  // The shape of the parts
  // ---------------------------------------------------------------------------

  /** What a bold part holds: `@` and at least one more character, none of them white space. */
  predicate MentionToken(s: string) {
    |s| >= 2 && s[0] == '@' && NoSpace(s)
  }

  /** No `@` token that the expression would highlight starts inside `s`. */
  predicate NoMatchIn(s: string) {
    !BoldAt(s, 0) && forall j :: 0 <= j < |s| && IsSpace(s[j]) ==> !BoldAt(s, j + 1)
  }

  /**
   * Part `k` is well placed: a plain part is non-empty and holds no
   * highlightable token; a bold part is a mention token that follows a plain
   * part ending in white space and, unless it is last, precedes a plain part
   * starting with white space.
   */
  predicate PartOk(parts: seq<Part>, k: nat)
    requires k < |parts|
  {
    match parts[k]
    case Plain(s) => s != "" && NoMatchIn(s)
    case Bold(s) =>
      MentionToken(s)
      && k > 0 && parts[k - 1].Plain? && parts[k - 1].content != ""
      && IsSpace(parts[k - 1].content[|parts[k - 1].content| - 1])
      && (k + 1 < |parts| ==> parts[k + 1].Plain? && parts[k + 1].content != ""
                              && IsSpace(parts[k + 1].content[0]))
  }

  predicate WellFormed(parts: seq<Part>) {
    forall k :: 0 <= k < |parts| ==> PartOk(parts, k)
  }

  /** Where `lastIndex` can stand: at the start, at the end, or on the white space after a token. */
  predicate Resumable(text: string, pos: nat) {
    pos == 0 || pos == |text| || (pos < |text| && IsSpace(text[pos]))
  }

  /** A stretch the search passed over holds no highlightable token. */
  lemma GapHasNoMatch(text: string, pos: nat, stop: nat)
    requires pos < stop <= |text| && Resumable(text, pos)
    requires forall j :: pos <= j < stop ==> !MatchAt(text, j)
    ensures NoMatchIn(text[pos..stop])
  {
    var s := text[pos..stop];
    assert !MatchAt(text, pos);
    forall j | 0 <= j < |s| && IsSpace(s[j])
      ensures !BoldAt(s, j + 1)
    {
      assert !MatchAt(text, pos + j);
    }
  }

  /** The parts of one match: well placed, ending with the bold part after its white-space part. */
  predicate HeadShape(head: seq<Part>) {
    |head| >= 2 && head[|head| - 1].Bold? && MentionToken(head[|head| - 1].content)
    && head[|head| - 2].Plain? && head[|head| - 2].content != ""
    && IsSpace(head[|head| - 2].content[|head[|head| - 2].content| - 1])
    && forall k :: 0 <= k < |head| - 1 ==> PartOk(head, k)
  }

  /** The parts that follow a bold part start with white space. */
  predicate StartsWithSpace(ps: seq<Part>) {
    ps == [] || (ps[0].Plain? && ps[0].content != "" && IsSpace(ps[0].content[0]))
  }

  lemma MatchPartsWellFormed(text: string, pos: nat, start: nat)
    requires pos <= start && MatchAt(text, start) && Resumable(text, pos)
    requires forall j :: pos <= j < start ==> !MatchAt(text, j)
    ensures HeadShape(MatchParts(text, pos, start))
    ensures pos > 0 ==> StartsWithSpace(MatchParts(text, pos, start))
  {
    var at := AtOf(text, start);
    var e := MatchEnd(text, start);
    var ps := MatchParts(text, pos, start);
    var g1 := if at == start then " " else text[start..at];
    assert IsSpace(' ');
    assert |g1| == 1 && IsSpace(g1[0]);
    assert NoMatchIn(g1);
    TokenEndNoSpace(text, at + 1);
    assert text[at..e] == [text[at]] + text[at + 1..e];
    if start > pos {
      GapHasNoMatch(text, pos, start);
      assert ps == [Plain(text[pos..start]), Plain(g1), Bold(text[at..e])];
    } else {
      assert ps == [Plain(g1), Bold(text[at..e])];
    }
  }

  /** A match's parts followed by well-formed parts that start with white space are well formed. */
  lemma WellFormedAppend(head: seq<Part>, rest: seq<Part>)
    requires HeadShape(head) && WellFormed(rest) && StartsWithSpace(rest)
    ensures WellFormed(head + rest)
  {
    var ps := head + rest;
    forall k | 0 <= k < |ps|
      ensures PartOk(ps, k)
    {
      if k < |head| - 1 {
        assert PartOk(head, k);
        assert ps[k] == head[k];
        if ps[k].Bold? {
          assert ps[k - 1] == head[k - 1] && ps[k + 1] == head[k + 1];
        }
      } else if k == |head| - 1 {
        assert ps[k - 1] == head[k - 1];
        if k + 1 < |ps| {
          assert ps[k + 1] == rest[0];
        }
      } else {
        var k' := k - |head|;
        assert ps[k] == rest[k'];
        assert PartOk(rest, k');
        if ps[k].Bold? {
          assert ps[k - 1] == rest[k' - 1];
          if k + 1 < |ps| {
            assert ps[k + 1] == rest[k' + 1];
          }
        }
      }
    }
  }

  /** The text left after the last match is one plain part, well placed. */
  lemma PlainTailWellFormed(text: string, pos: nat)
    requires pos < |text| && Resumable(text, pos) && NoMatchIn(text[pos..])
    ensures WellFormed([Plain(text[pos..])])
    ensures pos > 0 ==> StartsWithSpace([Plain(text[pos..])])
  {
    assert PartOk([Plain(text[pos..])], 0);
    assert text[pos..][0] == text[pos];
  }

  lemma {:induction false} HighlightFromWellFormed(text: string, pos: nat)
    requires pos <= |text| && Resumable(text, pos)
    ensures WellFormed(HighlightFrom(text, pos))
    ensures pos > 0 ==> StartsWithSpace(HighlightFrom(text, pos))
    decreases |text| - pos
  {
    FirstMatchIsFirst(text, pos);
    match FirstMatch(text, pos)
    case None =>
      HighlightFromEnd(text, pos);
      if pos < |text| {
        GapHasNoMatch(text, pos, |text|);
        PlainTailWellFormed(text, pos);
      }
    case Some(start) =>
      var e := MatchEnd(text, start);
      var head := MatchParts(text, pos, start);
      MatchPartsWellFormed(text, pos, start);
      HighlightFromWellFormed(text, e);
      HighlightFromUnfold(text, pos);
      WellFormedAppend(head, HighlightFrom(text, e));
      assert (head + HighlightFrom(text, e))[0] == head[0];
  }

  /**
   * Every part is well placed (lines 14-24): bold parts are `@` tokens that
   * start at the beginning of the text or right after white space and run to
   * the next white space or the end; an `@` inside a word is never
   * highlighted; plain parts are never empty (line 19 skips empty gaps) and
   * hold no token the expression would have highlighted.
   */
  lemma HighlightWellFormed(text: string)
    ensures WellFormed(Highlight(text))
  {
    HighlightFromWellFormed(text, 0);
  }
}
