/**
 * The settings lookup (`src/services/SettingsService.ts`): `getSetting` reads
 * the "Chat Settings" list, preferring an item scoped to the page over the
 * global one, and embeds the key and the page id in OData filters as string
 * literals with every single quote doubled (the `SQUOTE-in-string` rule of
 * the OData version 4.0 ABNF).
 */
module SettingsService {
  import opened Wrappers

  // ---------------------------------------------------------------------------
  // OData string literals
  // ---------------------------------------------------------------------------

  /** `s.replace(/'/g, "''")` */
  function EscapeQuotes(s: string): (r: string)
    ensures |r| >= |s|
    ensures r == [] <==> s == []
  {
    if s == [] then []
    else (if s[0] == '\'' then "''" else [s[0]]) + EscapeQuotes(s[1..])
  }

  /**
   * Reads the body of an OData string literal whose opening quote has been
   * consumed: two quotes stand for one, a single quote closes the literal.
   * Gives the value read and what follows the closing quote, or nothing when
   * the literal is not closed.
   */
  function ReadQuoted(t: string): Option<(string, string)>
    decreases |t|
  {
    if t == [] then None
    else if t[0] == '\'' && |t| >= 2 && t[1] == '\'' then
      match ReadQuoted(t[2..])
      case None => None
      case Some((v, rest)) => Some(("'" + v, rest))
    else if t[0] == '\'' then Some(([], t[1..]))
    else
      match ReadQuoted(t[1..])
      case None => None
      case Some((v, rest)) => Some(([t[0]] + v, rest))
  }

  /** A string without quotes is embedded as it is. */
  lemma {:induction false} EscapeQuotesKeepsPlain(s: string)
    requires forall i :: 0 <= i < |s| ==> s[i] != '\''
    ensures EscapeQuotes(s) == s
  {
    if s != [] {
      EscapeQuotesKeepsPlain(s[1..]);
      assert [s[0]] + s[1..] == s;
    }
  }

  /** An escaped string, once closed by a quote, reads back as itself; the rest follows untouched. */
  lemma {:induction false} ReadQuotedEscaped(s: string, tail: string)
    requires tail == [] || tail[0] != '\''
    ensures ReadQuoted(EscapeQuotes(s) + "'" + tail) == Some((s, tail))
  {
    if s == [] {
      assert EscapeQuotes(s) + "'" + tail == "'" + tail;
      AppendParts("'", tail);
    } else {
      var rest := EscapeQuotes(s[1..]);
      var head := if s[0] == '\'' then "''" else [s[0]];
      var after := rest + "'" + tail;
      ReadQuotedEscaped(s[1..], tail);
      assert EscapeQuotes(s) == head + rest;
      AppendAssoc(head, rest, "'");
      AppendAssoc(head, rest + "'", tail);
      AppendParts(head, after);
      assert [s[0]] + s[1..] == s;
    }
  }

  // ---------------------------------------------------------------------------
  // The two queries
  // ---------------------------------------------------------------------------

  const TitleClause := "Title eq '"
  /** What follows the key's literal in the page filter, up to the page id's literal. */
  const PageClause := " and " + "PageUniqueId eq '"
  /** What follows the key's literal in the global filter. */
  const GlobalClause := " and " + "(" + "PageUniqueId eq null or PageUniqueId eq '')"

  /** Line 56: the item with this title scoped to this page. */
  function PageFilter(key: string, pageUniqueId: string): string {
    TitleClause + EscapeQuotes(key) + "'" + PageClause + EscapeQuotes(pageUniqueId) + "'"
  }

  /** Line 68: the item with this title and no page. */
  function GlobalFilter(key: string): string {
    TitleClause + EscapeQuotes(key) + "'" + GlobalClause
  }

  /**
   * The page filter compares the title with exactly `key` and the page id
   * with exactly `pageUniqueId`, whatever quotes they hold: each reads back
   * as one literal.
   */
  lemma PageFilterReadsBack(key: string, pageUniqueId: string)
    ensures var f := PageFilter(key, pageUniqueId);
      f[..|TitleClause|] == TitleClause
      && ReadQuoted(f[|TitleClause|..]) == Some((key, PageClause + EscapeQuotes(pageUniqueId) + "'"))
      && ReadQuoted(EscapeQuotes(pageUniqueId) + "'") == Some((pageUniqueId, ""))
  {
    var f := PageFilter(key, pageUniqueId);
    var ek := EscapeQuotes(key);
    var ep := EscapeQuotes(pageUniqueId);
    var b := ek + "'";
    var tail := PageClause + ep + "'";
    AppendAssoc(TitleClause, ek, "'");
    AppendAssoc(TitleClause, b, PageClause);
    AppendAssoc(TitleClause, b + PageClause, ep);
    AppendAssoc(TitleClause, b + PageClause + ep, "'");
    AppendAssoc(b, PageClause, ep);
    AppendAssoc(b, PageClause + ep, "'");
    assert f == TitleClause + (b + tail);
    AppendParts(TitleClause, b + tail);
    assert tail[0] == ' ';
    ReadQuotedEscaped(key, tail);
    ReadQuotedEscaped(pageUniqueId, "");
    assert EscapeQuotes(pageUniqueId) + "'" + "" == EscapeQuotes(pageUniqueId) + "'";
  }

  /** The global filter compares the title with exactly `key`. */
  lemma GlobalFilterReadsBack(key: string)
    ensures var f := GlobalFilter(key);
      f[..|TitleClause|] == TitleClause
      && ReadQuoted(f[|TitleClause|..]) == Some((key, GlobalClause))
  {
    var f := GlobalFilter(key);
    AppendAssoc(TitleClause, EscapeQuotes(key), "'");
    AppendAssoc(TitleClause, EscapeQuotes(key) + "'", GlobalClause);
    AppendParts(TitleClause, EscapeQuotes(key) + "'" + GlobalClause);
    assert GlobalClause[0] == ' ';
    ReadQuotedEscaped(key, GlobalClause);
  }

  /** The two queries never share a filter. */
  lemma FiltersDiffer(key: string, pageUniqueId: string)
    ensures PageFilter(key, pageUniqueId) != GlobalFilter(key)
  {
    var n := |TitleClause| + |EscapeQuotes(key)| + 1;
    var page := PageFilter(key, pageUniqueId);
    var global := GlobalFilter(key);
    assert page == (TitleClause + EscapeQuotes(key) + "'") + (PageClause + EscapeQuotes(pageUniqueId) + "'");
    assert global == (TitleClause + EscapeQuotes(key) + "'") + GlobalClause;
    assert page[n + 5] == PageClause[5] == 'P';
    assert global[n + 5] == GlobalClause[5] == '(';
  }

  // ---------------------------------------------------------------------------
  // getSetting
  // ---------------------------------------------------------------------------

  /** An item's `Value` field: a string, or anything else (missing, null, a number). */
  datatype SettingValue = StringValue(s: string) | NonString

  datatype SettingItem = SettingItem(value: SettingValue)

  /** The filters of the queries made, in order, and the value returned. */
  datatype Lookup = Lookup(filters: seq<string>, value: Option<string>)

  /** `typeof candidate === "string" ? candidate : undefined` for the first item. */
  function FirstValue(items: seq<SettingItem>): (r: Option<string>)
    requires items != []
    ensures r.Some? <==> items[0].value.StringValue?
    ensures r.Some? ==> r.value == items[0].value.s
  {
    if items[0].value.StringValue? then Some(items[0].value.s) else None
  }

  /** `if (pageUniqueId)`: present and not empty. */
  predicate Scoped(pageUniqueId: Option<string>) {
    pageUniqueId.Some? && pageUniqueId.value != ""
  }

  /**
   * `getSetting(key, pageUniqueId)` (lines 45-79), with the answers of the
   * page-scoped and the global query; a query that throws ends the lookup
   * with no value (lines 75-78).
   */
  function GetSetting(key: string, pageUniqueId: Option<string>,
                      pageItems: Step<seq<SettingItem>>, globalItems: Step<seq<SettingItem>>): (r: Lookup)
    ensures 1 <= |r.filters| <= 2
    ensures r.filters[0] == PageFilter(key, pageUniqueId.GetOr("")) <==> Scoped(pageUniqueId)
    ensures |r.filters| == 2 ==> r.filters[1] == GlobalFilter(key)
    ensures !Scoped(pageUniqueId) ==> r.filters == [GlobalFilter(key)]
  {
    var global := GlobalFilter(key);
    FiltersDiffer(key, pageUniqueId.GetOr(""));
    if Scoped(pageUniqueId) then
      var page := PageFilter(key, pageUniqueId.value);
      if pageItems.Threw? then Lookup([page], None)
      else if pageItems.value != [] then Lookup([page], FirstValue(pageItems.value))
      else if globalItems.Threw? then Lookup([page, global], None)
      else if globalItems.value != [] then Lookup([page, global], FirstValue(globalItems.value))
      else Lookup([page, global], None)
    else
      if globalItems.Threw? then Lookup([global], None)
      else if globalItems.value != [] then Lookup([global], FirstValue(globalItems.value))
      else Lookup([global], None)
  }

  /**
   * The precedence of lines 50-78: an item scoped to the page decides alone,
   * even when its value is not a string; otherwise the global item does; no
   * item, or a query that throws, gives no value.
   */
  lemma GetSettingPrecedence(key: string, pageUniqueId: Option<string>,
                             pageItems: Step<seq<SettingItem>>, globalItems: Step<seq<SettingItem>>)
    ensures var r := GetSetting(key, pageUniqueId, pageItems, globalItems);
      if Scoped(pageUniqueId) && pageItems.Threw? then r.value == None && |r.filters| == 1
      else if Scoped(pageUniqueId) && pageItems.value != [] then
        r.value == FirstValue(pageItems.value) && |r.filters| == 1
      else if globalItems.Threw? || globalItems.value == [] then
        r.value == None && r.filters[|r.filters| - 1] == GlobalFilter(key)
      else
        r.value == FirstValue(globalItems.value) && r.filters[|r.filters| - 1] == GlobalFilter(key)
  {
  }

  /** A value is only ever the string `Value` of the first item some query returned. */
  lemma GetSettingValueFromItem(key: string, pageUniqueId: Option<string>,
                                pageItems: Step<seq<SettingItem>>, globalItems: Step<seq<SettingItem>>)
    ensures var r := GetSetting(key, pageUniqueId, pageItems, globalItems);
      r.value.Some? ==>
        (pageItems.Done? && pageItems.value != [] && pageItems.value[0].value == StringValue(r.value.value))
        || (globalItems.Done? && globalItems.value != [] && globalItems.value[0].value == StringValue(r.value.value))
  {
  }
}
