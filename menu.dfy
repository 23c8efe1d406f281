/** The numbered console menus. Every menu of the client prints its entries with a counter
    that starts at 1 (2 in the stream menu, after the main feed) and goes up by one per
    entry of the list it walks; the user's ordinal `n` then selects entry `n - 1` of that
    list. Some menus skip entries when printing but still advance the counter, so the
    printed ordinals can have gaps and still select the entry they were printed beside. */
module Menu {
  import opened PyStr

  /** One printed line `"<ordinal>. <text>"`. */
  datatype Line = Line(ordinal: nat, text: string)

  /** Every line carries the ordinal of a printed entry's position plus one, and that
      entry's label. */
  predicate Labelled(lines: seq<Line>, shown: seq<Option<string>>)
  {
    forall k :: 0 <= k < |lines| ==>
      1 <= lines[k].ordinal <= |shown| && shown[lines[k].ordinal - 1] == Some(lines[k].text)
  }

  /** The ordinals rise down the menu. */
  predicate Ascending(lines: seq<Line>)
  {
    forall k, l :: 0 <= k < l < |lines| ==> lines[k].ordinal < lines[l].ordinal
  }

  /** Every entry with a label has a line. */
  predicate Complete(lines: seq<Line>, shown: seq<Option<string>>)
  {
    forall i :: 0 <= i < |shown| && shown[i].Some? ==>
      exists k :: 0 <= k < |lines| && lines[k].ordinal == i + 1
  }

  /** `lines` is the menu printed from `shown` (the label of each entry, or `None` for an
      entry that is not printed). */
  predicate Lists(lines: seq<Line>, shown: seq<Option<string>>)
  {
    Labelled(lines, shown) && Ascending(lines) && Complete(lines, shown)
  }

  /** The lines printed for `shown`, entry by entry: an entry with a label is printed with
      its position plus one. */
  function Listing(shown: seq<Option<string>>): seq<Line>
  {
    if shown == [] then []
    else
      var n := |shown|;
      Listing(shown[..n - 1]) + if shown[n - 1].Some? then [Line(n, shown[n - 1].value)] else []
  }

  /** The listing of one more entry extends the listing of the shorter list. */
  lemma ListingSnoc(shown: seq<Option<string>>)
    requires shown != []
    ensures var n := |shown|;
            Listing(shown) == Listing(shown[..n - 1]) + if shown[n - 1].Some? then [Line(n, shown[n - 1].value)] else []
  {
  }

  /** Each listed line shows the label of the entry at its ordinal minus one. */
  lemma {:induction false} ListingLabelled(shown: seq<Option<string>>)
    ensures Labelled(Listing(shown), shown)
  {
    if shown != [] {
      var n := |shown|;
      var init := shown[..n - 1];
      var prev := Listing(init);
      var lines := Listing(shown);
      ListingLabelled(init);
      ListingSnoc(shown);
      forall k | 0 <= k < |lines|
        ensures 1 <= lines[k].ordinal <= n && shown[lines[k].ordinal - 1] == Some(lines[k].text)
      {
        if k < |prev| {
          assert lines[k] == prev[k];
          assert init[prev[k].ordinal - 1] == shown[prev[k].ordinal - 1];
        }
      }
    }
  }

  /** Listed ordinals rise. */
  lemma {:induction false} ListingAscending(shown: seq<Option<string>>)
    ensures Ascending(Listing(shown))
  {
    if shown != [] {
      var n := |shown|;
      var init := shown[..n - 1];
      var prev := Listing(init);
      var lines := Listing(shown);
      ListingAscending(init);
      ListingLabelled(init);
      ListingSnoc(shown);
      forall k, l | 0 <= k < l < |lines| ensures lines[k].ordinal < lines[l].ordinal {
        assert lines[k] == prev[k];
        if l < |prev| {
          assert lines[l] == prev[l];
        }
      }
    }
  }

  /** Every entry with a label is listed. */
  lemma {:induction false} ListingComplete(shown: seq<Option<string>>)
    ensures Complete(Listing(shown), shown)
  {
    if shown != [] {
      var n := |shown|;
      var init := shown[..n - 1];
      var prev := Listing(init);
      var lines := Listing(shown);
      ListingComplete(init);
      ListingSnoc(shown);
      forall i | 0 <= i < n && shown[i].Some?
        ensures exists k :: 0 <= k < |lines| && lines[k].ordinal == i + 1
      {
        if i < n - 1 {
          assert init[i] == shown[i];
          var k :| 0 <= k < |prev| && prev[k].ordinal == i + 1;
          assert lines[k] == prev[k];
        } else {
          assert lines[|lines| - 1].ordinal == i + 1;
        }
      }
    }
  }

  /** The listing of `shown` is its menu. */
  lemma ListingLists(shown: seq<Option<string>>)
    ensures Lists(Listing(shown), shown)
  {
    ListingLabelled(shown);
    ListingAscending(shown);
    ListingComplete(shown);
  }

  /** The counter loop over entries that are printed only when they qualify:
      `counter = 1; for c in list: if shown(c): print(counter, label(c)); counter += 1`. */
  method NumberShown(shown: seq<Option<string>>) returns (lines: seq<Line>)
    ensures lines == Listing(shown)
    ensures Lists(lines, shown)
  {
    lines := [];
    var counter := 1;
    while counter <= |shown|
      invariant 1 <= counter <= |shown| + 1
      invariant lines == Listing(shown[..counter - 1])
    {
      assert shown[..counter][..counter - 1] == shown[..counter - 1];
      var entry := shown[counter - 1];
      if entry.Some? {
        lines := lines + [Line(counter, entry.value)];
      }
      counter := counter + 1;
    }
    assert shown[..counter - 1] == shown;
    ListingLists(shown);
  }

  /** The counter loop over entries that are all printed, starting at `first`:
      entry `i` is printed with ordinal `first + i`. */
  method NumberFrom(labels: seq<string>, first: nat) returns (lines: seq<Line>)
    ensures |lines| == |labels|
    ensures forall i :: 0 <= i < |labels| ==> lines[i] == Line(first + i, labels[i])
  {
    lines := [];
    var counter := first;
    for i := 0 to |labels|
      invariant counter == first + i
      invariant |lines| == i
      invariant forall j :: 0 <= j < i ==> lines[j] == Line(first + j, labels[j])
    {
      lines := lines + [Line(counter, labels[i])];
      counter := counter + 1;
    }
  }

  /** A menu that prints every entry lists all of them, each under its own position plus one. */
  lemma NumberedLists(lines: seq<Line>, labels: seq<string>)
    requires |lines| == |labels|
    requires forall i :: 0 <= i < |labels| ==> lines[i] == Line(1 + i, labels[i])
    ensures Lists(lines, seq(|labels|, i requires 0 <= i < |labels| => Some(labels[i])))
  {
    var shown := seq(|labels|, i requires 0 <= i < |labels| => Some(labels[i]));
    assert Labelled(lines, shown) by {
      forall k | 0 <= k < |lines|
        ensures 1 <= lines[k].ordinal <= |shown| && shown[lines[k].ordinal - 1] == Some(lines[k].text)
      {
        assert lines[k] == Line(1 + k, labels[k]);
      }
    }
    assert Ascending(lines) by {
      forall k, l | 0 <= k < l < |lines| ensures lines[k].ordinal < lines[l].ordinal {
        assert lines[k].ordinal == 1 + k && lines[l].ordinal == 1 + l;
      }
    }
    assert Complete(lines, shown) by {
      forall i | 0 <= i < |shown| && shown[i].Some?
        ensures exists k :: 0 <= k < |lines| && lines[k].ordinal == i + 1
      {
        assert lines[i].ordinal == i + 1;
      }
    }
  }

  /** The line a listed menu prints with ordinal `n` shows the label of the entry that
      ordinal `n` selects, entry `n - 1`; and no other line carries that ordinal. */
  lemma {:induction false} OrdinalSelectsListedEntry(lines: seq<Line>, shown: seq<Option<string>>, k: nat)
    requires Lists(lines, shown)
    requires k < |lines|
    ensures shown[lines[k].ordinal - 1] == Some(lines[k].text)
    ensures forall l :: 0 <= l < |lines| && l != k ==> lines[l].ordinal != lines[k].ordinal
  {
    forall l | 0 <= l < |lines| && l != k ensures lines[l].ordinal != lines[k].ordinal {
      if l < k {
        assert lines[l].ordinal < lines[k].ordinal;
      } else {
        assert lines[k].ordinal < lines[l].ordinal;
      }
    }
  }
}
