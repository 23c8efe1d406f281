/** The catalog menus that lead to a playable content id: a season's meetings, a meeting's
    sessions, and the archive, shows and documentaries pages whose trays ("blocks") lead to
    collections, archive years and finally content. Each HTTP fetch is left out: the
    decoded containers are parameters, and so are the user's ordinals, which must be in
    range. */
module Catalog {
  import opened PyStr
  import opened Urls
  import opened Menu

  /** An item of a tray: `id` and `metadata.title`. */
  datatype Entry = Entry(id: string, title: string)

  /** A container of an archive, shows or documentaries page: `metadata.label` (`None` for
      JSON null), whether `retrieveItems.resultObj` is non-empty, the items under
      `retrieveItems.resultObj.containers` (`None` when that key is missing), and
      `retrieveItems.uriOriginal`. An empty `resultObj` has no `containers`, so a tray
      without results always has `entries == None`; other combinations do not arise. */
  datatype Tray = Tray(name: Option<string>, hasResults: bool, entries: Option<seq<Entry>>, uriOriginal: string)

  /** A container of a block page: `id`, `metadata.title`, `metadata.season` (`None` when
      the key is missing; a JSON null season is printed by the f-string as "None", so it is
      `Some("None")` here) and `actions[0].uri` (`None` when there is no action). */
  datatype Block = Block(id: string, title: string, season: Option<string>, actionUri: Option<string>)

  /** How a block page is fetched: by collection id, or by search parameters. */
  datatype BlockSource = Collection(collectionId: string) | Search(params: map<string, string>)

  /** Where a chosen block leads: an archive year page, or straight to a content id. */
  datatype BlockTarget = YearPage(pageId: string) | Content(contentId: string)

  /** A meeting of a season: `id`, `metadata.emfAttributes.MeetingKey`, `metadata.title`. */
  datatype Meeting = Meeting(id: string, meetingKey: string, title: string)

  /** A session of a meeting: `id`, `metadata.title`. */
  datatype WeekendSession = WeekendSession(id: string, title: string)

  /** Python's formatting of an optional string in an f-string: `None` prints as "None". */
  function PyText(s: Option<string>): string
  {
    match s
    case None => "None"
    case Some(t) => t
  }

  // ---------------------------------------------------------------------------------
  // Seasons and meetings

  function MeetingText(m: Meeting): string
  {
    m.meetingKey + "," + m.id + " - " + m.title
  }

  function SessionText(s: WeekendSession): string
  {
    s.id + " - " + s.title
  }

  /** `year_content`: list a season's meetings from 1 and pass on the meeting key of the
      one chosen. */
  method YearContent(meetings: seq<Meeting>, choice: int) returns (lines: seq<Line>, meetingKey: string)
    requires 1 <= choice <= |meetings|
    ensures |lines| == |meetings|
    ensures forall i :: 0 <= i < |meetings| ==> lines[i] == Line(i + 1, MeetingText(meetings[i]))
    ensures meetingKey == meetings[choice - 1].meetingKey
  {
    var labels := seq(|meetings|, i requires 0 <= i < |meetings| => MeetingText(meetings[i]));
    lines := NumberFrom(labels, 1);
    meetingKey := meetings[choice - 1].meetingKey;
  }

  /** `meeting_content`: list a meeting's sessions from 1 and pass on the id of the one
      chosen. */
  method MeetingContent(sessions: seq<WeekendSession>, choice: int) returns (lines: seq<Line>, contentId: string)
    requires 1 <= choice <= |sessions|
    ensures |lines| == |sessions|
    ensures forall i :: 0 <= i < |sessions| ==> lines[i] == Line(i + 1, SessionText(sessions[i]))
    ensures contentId == sessions[choice - 1].id
  {
    var labels := seq(|sessions|, i requires 0 <= i < |sessions| => SessionText(sessions[i]));
    lines := NumberFrom(labels, 1);
    contentId := sessions[choice - 1].id;
  }

  // ---------------------------------------------------------------------------------
  // The archive page

  /** The archive page prints a tray only when it has a label and results. */
  function ArchiveShown(trays: seq<Tray>): seq<Option<string>>
  {
    seq(|trays|, i requires 0 <= i < |trays| =>
      if trays[i].name.Some? && trays[i].hasResults then trays[i].name else None)
  }

  /** `archive`: list the trays (skipping unlabelled or empty ones, while the counter still
      advances), then take the collection id of the tray chosen; `None` is the
      `IndexError` of a `uriOriginal` without the collection marker. */
  method Archive(trays: seq<Tray>, choice: int) returns (lines: seq<Line>, collectionId: Option<string>)
    requires 1 <= choice <= |trays|
    ensures Lists(lines, ArchiveShown(trays))
    // each line shows the label of a labelled tray with results, under its position plus one
    ensures forall k :: 0 <= k < |lines| ==>
              1 <= lines[k].ordinal <= |trays| &&
              trays[lines[k].ordinal - 1].hasResults &&
              trays[lines[k].ordinal - 1].name == Some(lines[k].text)
    // every labelled tray with results is listed
    ensures forall i :: 0 <= i < |trays| && trays[i].name.Some? && trays[i].hasResults ==>
              exists k :: 0 <= k < |lines| && lines[k].ordinal == i + 1
    ensures collectionId == CollectionId(trays[choice - 1].uriOriginal)
  {
    lines := NumberShown(ArchiveShown(trays));
    forall k | 0 <= k < |lines|
      ensures trays[lines[k].ordinal - 1].hasResults && trays[lines[k].ordinal - 1].name == Some(lines[k].text)
    {
      assert ArchiveShown(trays)[lines[k].ordinal - 1] == Some(lines[k].text);
    }
    forall i | 0 <= i < |trays| && trays[i].name.Some? && trays[i].hasResults
      ensures exists k :: 0 <= k < |lines| && lines[k].ordinal == i + 1
    {
      assert ArchiveShown(trays)[i].Some?;
    }
    collectionId := CollectionId(trays[choice - 1].uriOriginal);
  }

  // ---------------------------------------------------------------------------------
  // Block pages (archive seasons, shows and documentaries collections)

  /** A block's line: the title on a search page; otherwise the season, or the title when
      the block has no season (the `KeyError` fallback). */
  function BlockText(b: Block, source: BlockSource): string
  {
    if source.Search? then b.title
    else match b.season
         case Some(season) => season
         case None => b.title
  }

  /** Where a chosen block leads: the page id of its action when that can be cut out of
      the action's URI, otherwise (no action, or no page marker: the `KeyError` /
      `IndexError` fallback) the block itself is content. */
  function Target(b: Block): (t: BlockTarget)
    ensures t.YearPage? <==> b.actionUri.Some? && Contains(b.actionUri.value, PageMarker)
    ensures t.YearPage? ==> t.pageId == PageId(b.actionUri.value).value && '/' !in t.pageId
    ensures t.Content? ==> t.contentId == b.id
  {
    match b.actionUri
    case None => Content(b.id)
    case Some(uri) =>
      match PageId(uri)
      case None => Content(b.id)
      case Some(pageId) => YearPage(pageId)
  }

  /** `archive_year_block`: list every block from 1, then follow the block chosen. */
  method ArchiveYearBlock(blocks: seq<Block>, source: BlockSource, choice: int)
    returns (lines: seq<Line>, target: BlockTarget)
    requires 1 <= choice <= |blocks|
    ensures |lines| == |blocks|
    ensures forall i :: 0 <= i < |blocks| ==> lines[i] == Line(i + 1, BlockText(blocks[i], source))
    ensures target == Target(blocks[choice - 1])
  {
    var labels := seq(|blocks|, i requires 0 <= i < |blocks| => BlockText(blocks[i], source));
    lines := NumberFrom(labels, 1);
    target := Target(blocks[choice - 1]);
  }

  // ---------------------------------------------------------------------------------
  // An archive year page

  /** An archive year page prints a category (its label, "None" for null) only when it has
      results. */
  function YearShown(trays: seq<Tray>): seq<Option<string>>
  {
    seq(|trays|, i requires 0 <= i < |trays| =>
      if trays[i].hasResults then Some(PyText(trays[i].name)) else None)
  }

  /** A listing of an archive year's categories, in terms of the categories themselves. */
  lemma YearCategoriesListed(trays: seq<Tray>, categories: seq<Line>)
    requires Lists(categories, YearShown(trays))
    ensures forall k :: 0 <= k < |categories| ==>
              1 <= categories[k].ordinal <= |trays| &&
              trays[categories[k].ordinal - 1].hasResults &&
              PyText(trays[categories[k].ordinal - 1].name) == categories[k].text
    ensures forall i :: 0 <= i < |trays| && trays[i].hasResults ==>
              exists k :: 0 <= k < |categories| && categories[k].ordinal == i + 1
  {
    forall k | 0 <= k < |categories|
      ensures trays[categories[k].ordinal - 1].hasResults &&
              PyText(trays[categories[k].ordinal - 1].name) == categories[k].text
    {
      assert YearShown(trays)[categories[k].ordinal - 1] == Some(categories[k].text);
    }
    forall i | 0 <= i < |trays| && trays[i].hasResults
      ensures exists k :: 0 <= k < |categories| && categories[k].ordinal == i + 1
    {
      assert YearShown(trays)[i].Some?;
    }
  }

  /** `archive_year`: list the categories (the counter advancing past empty ones), then the
      items of the category chosen from 1, then pass on the id of the item chosen. `None`
      is the `KeyError` of a category without an item list. */
  method ArchiveYear(trays: seq<Tray>, choice: int, itemChoice: int)
    returns (categories: seq<Line>, items: seq<Line>, contentId: Option<string>)
    requires 1 <= choice <= |trays|
    requires trays[choice - 1].entries.Some? ==> 1 <= itemChoice <= |trays[choice - 1].entries.value|
    ensures Lists(categories, YearShown(trays))
    // each category line shows the label ("None" for null) of a category with results,
    // under its position plus one; every category with results is listed
    ensures forall k :: 0 <= k < |categories| ==>
              1 <= categories[k].ordinal <= |trays| &&
              trays[categories[k].ordinal - 1].hasResults &&
              PyText(trays[categories[k].ordinal - 1].name) == categories[k].text
    ensures forall i :: 0 <= i < |trays| && trays[i].hasResults ==>
              exists k :: 0 <= k < |categories| && categories[k].ordinal == i + 1
    ensures trays[choice - 1].entries.None? ==> items == [] && contentId == None
    ensures trays[choice - 1].entries.Some? ==>
              var es := trays[choice - 1].entries.value;
              && |items| == |es|
              && (forall i :: 0 <= i < |es| ==> items[i] == Line(i + 1, es[i].id + " - " + es[i].title))
              && contentId == Some(es[itemChoice - 1].id)
  {
    categories := NumberShown(YearShown(trays));
    YearCategoriesListed(trays, categories);
    var chosen := trays[choice - 1].entries;
    if chosen.None? {
      return categories, [], None;
    }
    var es := chosen.value;
    items := NumberFrom(seq(|es|, i requires 0 <= i < |es| => es[i].id + " - " + es[i].title), 1);
    contentId := Some(es[itemChoice - 1].id);
  }

  // ---------------------------------------------------------------------------------
  // The shows and documentaries pages

  function Titles(entries: seq<Entry>): seq<string>
  {
    seq(|entries|, i requires 0 <= i < |entries| => entries[i].title)
  }

  /** The separator of combined show titles. */
  const TitleSeparator: string := ", "

  /** The line of an unnamed block: its items' titles joined by ", ", or "None" when the
      block has no item list (the `KeyError` fallback). */
  function CombinedTitles(entries: Option<seq<Entry>>): string
  {
    match entries
    case None => "None"
    case Some(es) => Join(Titles(es), TitleSeparator)
  }

  /** Each title followed by the separator, as the source's `+=` loop builds it. */
  function Terminated(titles: seq<string>, sep: string): string
  {
    if titles == [] then []
    else Terminated(titles[..|titles| - 1], sep) + titles[|titles| - 1] + sep
  }

  /** Joining one more piece appends the separator and the piece. */
  lemma {:induction false} JoinSnoc(parts: seq<string>, sep: string, last: string)
    requires parts != []
    ensures Join(parts + [last], sep) == Join(parts, sep) + sep + last
  {
    if |parts| > 1 {
      assert (parts + [last])[1..] == parts[1..] + [last];
      JoinSnoc(parts[1..], sep, last);
    }
  }

  /** The `+=` loop builds the join followed by one separator. */
  lemma {:induction false} TerminatedIsJoin(titles: seq<string>, sep: string)
    requires titles != []
    ensures Terminated(titles, sep) == Join(titles, sep) + sep
  {
    var n := |titles|;
    if n > 1 {
      var init := titles[..n - 1];
      TerminatedIsJoin(init, sep);
      JoinSnoc(init, sep, titles[n - 1]);
      assert init + [titles[n - 1]] == titles;
    }
  }

  /** The combined titles as the source builds them: `combined += title + ", "` for every
      item, then `combined[:-2]`. */
  method CombineTitles(entries: Option<seq<Entry>>) returns (combined: string)
    ensures combined == CombinedTitles(entries)
  {
    if entries.None? {
      return "None";
    }
    var es := entries.value;
    combined := "";
    for i := 0 to |es|
      invariant combined == Terminated(Titles(es[..i]), TitleSeparator)
    {
      assert Titles(es[..i + 1])[..i] == Titles(es[..i]);
      combined := combined + es[i].title + TitleSeparator;
    }
    assert es[..|es|] == es;
    if es != [] {
      TerminatedIsJoin(Titles(es), TitleSeparator);
    }
    // Python's `s[:-2]` is empty for a string shorter than two characters
    combined := if |combined| >= 2 then combined[..|combined| - 2] else "";
  }

  /** The separator of combined titles is border-free. */
  lemma TitleSeparatorBorderFree()
    ensures BorderFree(TitleSeparator)
  {
    assert TitleSeparator[..1] == [','];
    UniqueLastCharBorderFree(TitleSeparator);
  }

  /** Combined titles that themselves contain no ", " can be split back into the titles. */
  lemma CombinedTitlesSplit(entries: seq<Entry>)
    requires entries != []
    requires forall i :: 0 <= i < |entries| ==> !Contains(entries[i].title, TitleSeparator)
    ensures Split(CombinedTitles(Some(entries)), TitleSeparator) == Titles(entries)
  {
    TitleSeparatorBorderFree();
    SplitJoin(Titles(entries), TitleSeparator);
  }

  /** A shows tray's line: its label when it has one and results, otherwise the combined
      titles of its items. */
  function ShowsText(t: Tray): string
  {
    if t.name.Some? && t.hasResults then t.name.value else CombinedTitles(t.entries)
  }

  /** Where a chosen shows tray leads: the collection of its `uriOriginal`, or when that has
      no collection marker (the `IndexError` fallback) a search with the parameters parsed
      from its query string; `None` when the fallback parse fails too. */
  function ShowsSource(t: Tray): (r: Option<BlockSource>)
    ensures Contains(t.uriOriginal, CollectionMarker) ==>
              r == Some(Collection(CollectionId(t.uriOriginal).value))
    ensures !Contains(t.uriOriginal, CollectionMarker) ==>
              (r.Some? <==> QueryParams(t.uriOriginal).Some?) &&
              (r.Some? ==> r.value == Search(QueryParams(t.uriOriginal).value))
  {
    match CollectionId(t.uriOriginal)
    case Some(collectionId) => Some(Collection(collectionId))
    case None =>
      match QueryParams(t.uriOriginal)
      case None => None
      case Some(params) => Some(Search(params))
  }

  /** `shows_documentaries`: list every tray from 1 (a labelled tray with results by its
      label, any other by its combined titles), then find the source of the block page of
      the tray chosen. */
  method ShowsDocumentaries(trays: seq<Tray>, choice: int) returns (lines: seq<Line>, source: Option<BlockSource>)
    requires 1 <= choice <= |trays|
    ensures |lines| == |trays|
    ensures forall i :: 0 <= i < |trays| ==> lines[i] == Line(i + 1, ShowsText(trays[i]))
    ensures source == ShowsSource(trays[choice - 1])
  {
    lines := [];
    var counter := 1;
    for i := 0 to |trays|
      invariant counter == i + 1 && |lines| == i
      invariant forall j :: 0 <= j < i ==> lines[j] == Line(j + 1, ShowsText(trays[j]))
    {
      var t := trays[i];
      var text: string;
      if t.name.Some? && t.hasResults {
        text := t.name.value;
      } else {
        text := CombineTitles(t.entries);
      }
      lines := lines + [Line(counter, text)];
      counter := counter + 1;
    }
    var uri := trays[choice - 1].uriOriginal;
    var collectionId := CollectionId(uri);
    if collectionId.Some? {
      source := Some(Collection(collectionId.value));
    } else {
      var params := ParseQuery(uri);
      source := if params.Some? then Some(Search(params.value)) else None;
    }
  }
}
