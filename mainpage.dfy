/** The main page. The viewer's menu starts from five fixed entries; every content item of
    the front page whose subtype is "LIVE" is inserted at index 1 as
    "<id> - LIVE EVENT - <title>", so live events appear after "Login", the one found last
    first. The entry chosen is dispatched on which keyword it contains, checked in a fixed
    order. The older content client's main page offers only "Login" and "Year Choice",
    chosen by number. */
module MainPage {
  import opened PyStr
  import opened Menu

  /** A content item of a front page row: `id`, `metadata.title`,
      `metadata.contentSubtype`. */
  datatype Item = Item(id: string, title: string, subtype: string)

  /** What choosing a main menu entry does. The page ids are the shows (410) and
      documentaries (413) pages. */
  datatype Action =
    | WatchLive(contentId: string)
    | Login
    | ChooseYear
    | OpenArchive
    | OpenPage(pageId: nat)
    | Nothing

  const LiveSubtype: string := "LIVE"
  const LiveMarker: string := "LIVE EVENT"
  const LiveIdSeparator: string := " -"
  const ShowsPage: nat := 410
  const DocumentariesPage: nat := 413

  /** The menu before live events are inserted. */
  const FixedItems: seq<string> := ["Login", "Year Choice", "Archive", "Shows", "Documentaries"]

  function LiveLabel(item: Item): string
  {
    item.id + " - LIVE EVENT - " + item.title
  }

  /** The live items of one row, in row order. */
  function LiveIn(items: seq<Item>): seq<Item>
  {
    if items == [] then []
    else
      var n := |items|;
      LiveIn(items[..n - 1]) + if items[n - 1].subtype == LiveSubtype then [items[n - 1]] else []
  }

  /** The live items of the front page, in the order the page lists them. */
  function LiveItems(rows: seq<seq<Item>>): seq<Item>
  {
    if rows == [] then [] else LiveItems(rows[..|rows| - 1]) + LiveIn(rows[|rows| - 1])
  }

  function Reversed<T>(s: seq<T>): (r: seq<T>)
    ensures |r| == |s|
  {
    if s == [] then [] else [s[|s| - 1]] + Reversed(s[..|s| - 1])
  }

  function Labels(items: seq<Item>): seq<string>
  {
    seq(|items|, i requires 0 <= i < |items| => LiveLabel(items[i]))
  }

  /** The viewer's main menu for a front page: "Login", the live events with the one found
      last first, then the other fixed entries. */
  function MainMenu(rows: seq<seq<Item>>): (menu: seq<string>)
    ensures |menu| == |LiveItems(rows)| + |FixedItems|
  {
    MenuWith(LiveItems(rows))
  }

  /** The menu once the live items `live` have been inserted, in that order. */
  function MenuWith(live: seq<Item>): (menu: seq<string>)
    ensures |menu| == |live| + |FixedItems|
  {
    [FixedItems[0]] + Labels(Reversed(live)) + FixedItems[1..]
  }

  /** Inserting one more live item's label at index 1. */
  lemma MenuWithInsert(live: seq<Item>, item: Item)
    ensures MenuWith(live + [item]) == MenuWith(live)[..1] + [LiveLabel(item)] + MenuWith(live)[1..]
  {
    assert (live + [item])[..|live|] == live;
    assert Reversed(live + [item]) == [item] + Reversed(live);
    assert Labels([item] + Reversed(live)) == [LiveLabel(item)] + Labels(Reversed(live));
    var m := MenuWith(live);
    assert m[..1] == [FixedItems[0]];
    assert m[1..] == Labels(Reversed(live)) + FixedItems[1..];
  }

  /** The live items of one more entry of a row. */
  lemma LiveInSnoc(row: seq<Item>, j: nat)
    requires j < |row|
    ensures LiveIn(row[..j + 1]) == LiveIn(row[..j]) + if row[j].subtype == LiveSubtype then [row[j]] else []
  {
    assert row[..j + 1][..j] == row[..j];
  }

  /** The live items of one more row. */
  lemma LiveItemsSnoc(rows: seq<seq<Item>>, r: nat)
    requires r < |rows|
    ensures LiveItems(rows[..r + 1]) == LiveItems(rows[..r]) + LiveIn(rows[r])
  {
    assert rows[..r + 1][..r] == rows[..r];
  }

  /** Reversal maps index `k` to index `|s| - 1 - k`. */
  lemma {:induction false} ReversedIndex<T>(s: seq<T>)
    ensures |Reversed(s)| == |s|
    ensures forall k :: 0 <= k < |s| ==> Reversed(s)[k] == s[|s| - 1 - k]
  {
    if s != [] {
      ReversedIndex(s[..|s| - 1]);
    }
  }

  /** An item is among a row's live items exactly when it is in the row with the live
      subtype. */
  lemma {:induction false} LiveInMembers(items: seq<Item>)
    ensures forall x :: x in LiveIn(items) <==> x in items && x.subtype == LiveSubtype
  {
    if items != [] {
      var n := |items|;
      LiveInMembers(items[..n - 1]);
      assert items == items[..n - 1] + [items[n - 1]];
    }
  }

  /** An item is among the front page's live items exactly when some row holds it with the
      live subtype. */
  lemma {:induction false} LiveItemsMembers(rows: seq<seq<Item>>)
    ensures forall x :: x in LiveItems(rows) <==>
              (exists r :: 0 <= r < |rows| && x in rows[r]) && x.subtype == LiveSubtype
  {
    if rows != [] {
      var n := |rows|;
      LiveItemsMembers(rows[..n - 1]);
      LiveInMembers(rows[n - 1]);
      forall x | (exists r :: 0 <= r < n && x in rows[r]) && x.subtype == LiveSubtype
        ensures x in LiveItems(rows)
      {
        var r :| 0 <= r < n && x in rows[r];
        if r < n - 1 {
          assert rows[..n - 1][r] == rows[r];
        }
      }
      assert forall r :: 0 <= r < n - 1 ==> rows[..n - 1][r] == rows[r];
    }
  }

  /** The nested loop over the front page that builds the menu: every live item is
      inserted at index 1. */
  method BuildMainMenu(rows: seq<seq<Item>>) returns (menu: seq<string>)
    ensures menu == MainMenu(rows)
  {
    menu := FixedItems;
    for r := 0 to |rows|
      invariant menu == MenuWith(LiveItems(rows[..r]))
    {
      var row := rows[r];
      ghost var found := LiveItems(rows[..r]);
      assert row[..0] == [];
      assert found + LiveIn(row[..0]) == found;
      for j := 0 to |row|
        invariant menu == MenuWith(found + LiveIn(row[..j]))
      {
        var item := row[j];
        LiveInSnoc(row, j);
        if item.subtype == LiveSubtype {
          MenuWithInsert(found + LiveIn(row[..j]), item);
          assert found + LiveIn(row[..j + 1]) == found + LiveIn(row[..j]) + [item];
          menu := menu[..1] + [LiveLabel(item)] + menu[1..];
        } else {
          assert found + LiveIn(row[..j + 1]) == found + LiveIn(row[..j]);
        }
      }
      assert row[..|row|] == row;
      LiveItemsSnoc(rows, r);
    }
    assert rows[..|rows|] == rows;
  }

  /** The dispatch on the chosen entry's text: the first keyword it contains decides. A
      live event is watched by the text before its first " -". */
  function Dispatch(entry: string): (a: Action)
    ensures a.WatchLive? <==> Contains(entry, LiveMarker)
    ensures a.WatchLive? ==> a.contentId == Before(entry, LiveIdSeparator)
    ensures a == Login <==> !Contains(entry, LiveMarker) && Contains(entry, "Login")
    ensures a == ChooseYear <==>
              !Contains(entry, LiveMarker) && !Contains(entry, "Login") && Contains(entry, "Year Choice")
    ensures a == OpenArchive <==>
              !Contains(entry, LiveMarker) && !Contains(entry, "Login") && !Contains(entry, "Year Choice") &&
              Contains(entry, "Archive")
    ensures a == OpenPage(ShowsPage) <==>
              !Contains(entry, LiveMarker) && !Contains(entry, "Login") && !Contains(entry, "Year Choice") &&
              !Contains(entry, "Archive") && Contains(entry, "Shows")
    ensures a == OpenPage(DocumentariesPage) <==>
              !Contains(entry, LiveMarker) && !Contains(entry, "Login") && !Contains(entry, "Year Choice") &&
              !Contains(entry, "Archive") && !Contains(entry, "Shows") && Contains(entry, "Documentaries")
    ensures a == Nothing <==>
              !Contains(entry, LiveMarker) && !Contains(entry, "Login") && !Contains(entry, "Year Choice") &&
              !Contains(entry, "Archive") && !Contains(entry, "Shows") && !Contains(entry, "Documentaries")
  {
    SplitHead(entry, LiveIdSeparator);
    if Contains(entry, LiveMarker) then WatchLive(Split(entry, LiveIdSeparator)[0])
    else if Contains(entry, "Login") then Login
    else if Contains(entry, "Year Choice") then ChooseYear
    else if Contains(entry, "Archive") then OpenArchive
    else if Contains(entry, "Shows") then OpenPage(ShowsPage)
    else if Contains(entry, "Documentaries") then OpenPage(DocumentariesPage)
    else Nothing
  }

  /** Each fixed entry leads to its own action: no fixed entry contains the keyword of an
      entry checked before it. */
  lemma LoginDispatch()
    ensures Dispatch("Login") == Login
  {
    ContainsSelf("Login");
  }

  lemma YearChoiceDispatch()
    ensures Dispatch("Year Choice") == ChooseYear
  {
    ContainsSelf("Year Choice");
    AbsentFirstChar("Year Choice", LiveMarker);
    AbsentFirstChar("Year Choice", "Login");
  }

  lemma ArchiveDispatch()
    ensures Dispatch("Archive") == OpenArchive
  {
    ContainsSelf("Archive");
    AbsentFirstChar("Archive", LiveMarker);
    AbsentFirstChar("Archive", "Login");
    AbsentFirstChar("Archive", "Year Choice");
  }

  lemma ShowsDispatch()
    ensures Dispatch("Shows") == OpenPage(ShowsPage)
  {
    ContainsSelf("Shows");
    AbsentFirstChar("Shows", LiveMarker);
    AbsentFirstChar("Shows", "Login");
    AbsentFirstChar("Shows", "Year Choice");
    AbsentFirstChar("Shows", "Archive");
  }

  lemma DocumentariesDispatch()
    ensures Dispatch("Documentaries") == OpenPage(DocumentariesPage)
  {
    ContainsSelf("Documentaries");
    AbsentFirstChar("Documentaries", LiveMarker);
    AbsentFirstChar("Documentaries", "Login");
    AbsentFirstChar("Documentaries", "Year Choice");
    AbsentFirstChar("Documentaries", "Archive");
    AbsentFirstChar("Documentaries", "Shows");
  }

  /** Choosing a live event's entry watches that event, provided its id does not itself
      contain " -" (where the id would be cut short). */
  lemma LiveLabelDispatch(item: Item)
    requires !Contains(item.id, LiveIdSeparator)
    ensures Dispatch(LiveLabel(item)) == WatchLive(item.id)
  {
    var rest := " LIVE EVENT - " + item.title;
    assert LiveLabel(item) == item.id + LiveIdSeparator + rest;
    assert OccursAt(LiveLabel(item), LiveMarker, |item.id| + 3) by {
      assert LiveLabel(item)[|item.id| + 3..|item.id| + 13] == LiveMarker;
    }
    assert LiveIdSeparator[..1] == " ";
    UniqueLastCharBorderFree(LiveIdSeparator);
    NoOccurrenceAcrossBorder(item.id, LiveIdSeparator);
    SplitAfterPrefix(item.id, LiveIdSeparator, rest);
  }

  /** Where each entry of the menu sits: "Login" first, then the labels of the live items
      from the last to the first, then the other four fixed entries. */
  lemma MenuWithLayout(live: seq<Item>)
    ensures MenuWith(live)[0] == FixedItems[0]
    ensures forall k :: 1 <= k <= |live| ==> MenuWith(live)[k] == LiveLabel(live[|live| - k])
    ensures forall k :: |live| < k < |live| + |FixedItems| ==> MenuWith(live)[k] == FixedItems[k - |live|]
  {
    var n := |live|;
    var rev := Reversed(live);
    ReversedIndex(live);
    var labels := Labels(rev);
    var m := MenuWith(live);
    assert m == [FixedItems[0]] + labels + FixedItems[1..];
    assert |labels| == n;
    forall k | 1 <= k <= n ensures m[k] == LiveLabel(live[n - k]) {
      assert m[k] == labels[k - 1];
      assert labels[k - 1] == LiveLabel(rev[k - 1]);
    }
    forall k | n < k < n + |FixedItems| ensures m[k] == FixedItems[k - n] {
      assert m[k] == FixedItems[1..][k - n - 1];
    }
  }

  /** The action of the entry at ordinal `n` of the menu with the live items `live`. */
  lemma MenuWithOrdinal(live: seq<Item>, n: int)
    requires forall x :: x in live ==> !Contains(x.id, LiveIdSeparator)
    requires 1 <= n <= |live| + 5
    ensures var L := |live|;
            var a := Dispatch(MenuWith(live)[n - 1]);
            && (n == 1 ==> a == Login)
            && (2 <= n <= L + 1 ==> a == WatchLive(live[L + 1 - n].id))
            && (n == L + 2 ==> a == ChooseYear)
            && (n == L + 3 ==> a == OpenArchive)
            && (n == L + 4 ==> a == OpenPage(ShowsPage))
            && (n == L + 5 ==> a == OpenPage(DocumentariesPage))
  {
    var L := |live|;
    MenuWithLayout(live);
    var entry := MenuWith(live)[n - 1];
    if n == 1 {
      assert entry == "Login";
      LoginDispatch();
    } else if n <= L + 1 {
      assert entry == LiveLabel(live[L + 1 - n]);
      LiveLabelDispatch(live[L + 1 - n]);
    } else if n == L + 2 {
      assert entry == "Year Choice";
      YearChoiceDispatch();
    } else if n == L + 3 {
      assert entry == "Archive";
      ArchiveDispatch();
    } else if n == L + 4 {
      assert entry == "Shows";
      ShowsDispatch();
    } else {
      assert entry == "Documentaries";
      DocumentariesDispatch();
    }
  }

  /** The ordinals of the viewer's main menu with `L` live events: 1 logs in, 2 to `L + 1`
      watch the live events from the one found last to the one found first, and the next
      four open the year choice, the archive, the shows and the documentaries. */
  lemma MainMenuOrdinals(rows: seq<seq<Item>>, n: int)
    requires forall x :: x in LiveItems(rows) ==> !Contains(x.id, LiveIdSeparator)
    requires 1 <= n <= |MainMenu(rows)|
    ensures var live := LiveItems(rows);
            var L := |live|;
            && |MainMenu(rows)| == L + 5
            && (n == 1 ==> Dispatch(MainMenu(rows)[n - 1]) == Login)
            && (2 <= n <= L + 1 ==> Dispatch(MainMenu(rows)[n - 1]) == WatchLive(live[L + 1 - n].id))
            && (n == L + 2 ==> Dispatch(MainMenu(rows)[n - 1]) == ChooseYear)
            && (n == L + 3 ==> Dispatch(MainMenu(rows)[n - 1]) == OpenArchive)
            && (n == L + 4 ==> Dispatch(MainMenu(rows)[n - 1]) == OpenPage(ShowsPage))
            && (n == L + 5 ==> Dispatch(MainMenu(rows)[n - 1]) == OpenPage(DocumentariesPage))
  {
    MenuWithOrdinal(LiveItems(rows), n);
  }

  /** `mainpage` of the viewer: build the menu, print it from 1 and dispatch the entry
      chosen. */
  method ViewerMainPage(rows: seq<seq<Item>>, choice: int) returns (lines: seq<Line>, action: Action)
    requires 1 <= choice <= |LiveItems(rows)| + |FixedItems|
    ensures |lines| == |MainMenu(rows)|
    ensures forall i :: 0 <= i < |lines| ==> lines[i] == Line(i + 1, MainMenu(rows)[i])
    ensures action == Dispatch(MainMenu(rows)[choice - 1])
  {
    var menu := BuildMainMenu(rows);
    ReversedIndex(LiveItems(rows));
    lines := NumberFrom(menu, 1);
    action := Dispatch(menu[choice - 1]);
  }

  /** `mainpage` of the content client: 1 logs in, 2 asks for a year, any other number does
      nothing. */
  function ContentMainPage(choice: int): (a: Action)
    ensures a == Login <==> choice == 1
    ensures a == ChooseYear <==> choice == 2
    ensures a == Login || a == ChooseYear || a == Nothing
  {
    if choice == 1 then Login
    else if choice == 2 then ChooseYear
    else Nothing
  }

  /** With nothing live, the viewer's first two entries do what the content client's two
      entries do. */
  lemma MainPagesAgree(rows: seq<seq<Item>>, n: int)
    requires LiveItems(rows) == []
    requires n == 1 || n == 2
    ensures Dispatch(MainMenu(rows)[n - 1]) == ContentMainPage(n)
  {
    MainMenuOrdinals(rows, n);
  }
}
