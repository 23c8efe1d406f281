/** The identifiers the client cuts out of provider URLs with chains of `split`, the
    fallback query-string parse of the shows page, and the query parameters of a
    playback request. */
module Urls {
  import opened PyStr

  /** Marks the query of a stream's `playbackUrl`. */
  const PlayMarker: string := "CONTENT/PLAY?"
  /** Precedes the collection id in a tray's `uriOriginal`. */
  const CollectionMarker: string := "/TRAY/EXTCOLLECTION/"
  /** Precedes the page id in an archive block's action `uri`. */
  const PageMarker: string := "ALL/PAGE/"

  /** The channel id of an additional stream:
      `playbackUrl.split("CONTENT/PLAY?")[1].split("&")[0].split("=")[1]`.
      `None` is the `IndexError` raised when the URL has no play marker, or when the first
      `&`-segment of its query has no `=`. The id is the text after the first `=` of the
      first `&`-segment of the text between the first and the second play marker, up to
      the next `=`. */
  function ChannelId(playbackUrl: string): (r: Option<string>)
    ensures After(playbackUrl, PlayMarker).None? ==> r.None?
    ensures After(playbackUrl, PlayMarker).Some? ==>
              var segment := Before(Before(After(playbackUrl, PlayMarker).value, PlayMarker), "&");
              r == match After(segment, "=")
                   case None => None
                   case Some(v) => Some(Before(v, "="))
  {
    match Field(playbackUrl, PlayMarker, 1)
    case None => None
    case Some(query) => Field(Split(query, "&")[0], "=", 1)
  }

  /** The play marker is border-free: text without it cannot be completed into one by
      the marker's own first characters. */
  lemma PlayMarkerBorderFree()
    ensures BorderFree(PlayMarker)
  {
    assert PlayMarker[..|PlayMarker| - 1] == "CONTENT/PLAY";
    UniqueLastCharBorderFree(PlayMarker);
  }

  /** An occurrence of a pattern in `a + [c] + b`, for a character `c` the pattern does not
      hold, lies wholly in `a` or wholly in `b`. */
  lemma OccursOnOneSide(a: string, c: char, b: string, pat: string, j: int)
    requires c !in pat
    requires OccursAt(a + [c] + b, pat, j)
    ensures OccursAt(a, pat, j) || OccursAt(b, pat, j - |a| - 1)
  {
    var s := a + [c] + b;
    // The pattern cannot cover the position of `c`.
    assert s[|a|] == c;
    if j + |pat| <= |a| {
      assert s[j..j + |pat|] == a[j..j + |pat|];
    } else if |a| < j {
      var k := j - |a| - 1;
      assert s[j..j + |pat|] == (a + [c] + b)[|a| + 1 + k..|a| + 1 + k + |pat|];
      assert (a + [c] + b)[|a| + 1..] == b;
      assert s[j..j + |pat|] == b[k..k + |pat|];
    }
  }

  /** The first `&`-segment of a query `<key>=<id>&<rest>`, cut at its first play marker,
      is `<key>=<id>` when neither the key nor the id holds `&` or a play marker: a marker
      holds neither `&` nor `=`, so any marker lies in `rest`. */
  lemma FirstSegmentBeforeMarker(key: string, id: string, rest: string)
    requires !Contains(key, PlayMarker) && !Contains(id, PlayMarker)
    requires '&' !in key && '&' !in id
    ensures Before(Before(key + "=" + id + "&" + rest, PlayMarker), "&") == key + "=" + id
  {
    var pair := key + "=" + id;
    var query := pair + "&" + rest;
    assert key + "=" + id + "&" + rest == query;
    ContainsChar(pair, '&');
    assert "&"[..0] == [] && pair + [] == pair;
    match Find(query, PlayMarker)
    case None =>
      SplitAfterPrefix(pair, "&", rest);
    case Some(i) =>
      assert query == pair + ['&'] + rest;
      OccursOnOneSide(pair, '&', rest, PlayMarker, i);
      if OccursAt(pair, PlayMarker, i) {
        assert pair == key + ['='] + id;
        OccursOnOneSide(key, '=', id, PlayMarker, i);
        assert false;
      }
      var r := rest[..i - |pair| - 1];
      assert query[..i] == pair + "&" + r;
      SplitAfterPrefix(pair, "&", r);
  }

  /** A playback URL built as `<prefix>CONTENT/PLAY?<key>=<id>&<rest>` yields `id`, for
      a key and an id without `&`, `=` or a play marker. Whatever follows the first `&`,
      including further play markers, does not change the id. */
  lemma ChannelIdOfPlaybackUrl(prefix: string, key: string, id: string, rest: string)
    requires !Contains(prefix, PlayMarker)
    requires !Contains(key, PlayMarker) && !Contains(id, PlayMarker)
    requires '&' !in key && '=' !in key && '&' !in id && '=' !in id
    ensures ChannelId(prefix + PlayMarker + key + "=" + id + "&" + rest) == Some(id)
  {
    var query := key + "=" + id + "&" + rest;
    assert prefix + PlayMarker + key + "=" + id + "&" + rest == prefix + PlayMarker + query;
    PlayMarkerBorderFree();
    NoOccurrenceAcrossBorder(prefix, PlayMarker);
    SplitAfterPrefix(prefix, PlayMarker, query);
    FirstSegmentBeforeMarker(key, id, rest);
    ContainsChar(key, '=');
    assert "="[..0] == [] && key + [] == key;
    SplitAfterPrefix(key, "=", id);
    ContainsChar(id, '=');
  }

  /** The collection id of a tray: `uriOriginal.split("/TRAY/EXTCOLLECTION/")[1]`, the
      text between the first and the second collection marker; `None` (the `IndexError`)
      when the marker is absent. */
  function CollectionId(uriOriginal: string): (r: Option<string>)
    ensures r.None? <==> !Contains(uriOriginal, CollectionMarker)
    ensures r.Some? ==> !Contains(r.value, CollectionMarker)
    ensures r.Some? ==> r.value == Before(After(uriOriginal, CollectionMarker).value, CollectionMarker)
  {
    SplitPieces(uriOriginal, CollectionMarker);
    Field(uriOriginal, CollectionMarker, 1)
  }

  /** `<prefix>/TRAY/EXTCOLLECTION/<id>` yields `id` when no marker starts inside the
      prefix and none occurs in the id. */
  lemma CollectionIdOfUri(prefix: string, id: string)
    requires NoneStartsIn(prefix, CollectionMarker)
    requires !Contains(id, CollectionMarker)
    ensures CollectionId(prefix + CollectionMarker + id) == Some(id)
  {
    SplitAfterPrefix(prefix, CollectionMarker, id);
  }

  /** The page id of an archive block's action:
      `uri.split("ALL/PAGE/")[1].split("/")[0]`, the text after the first page marker up to
      the next `/`; `None` (the `IndexError`) when the marker is absent. */
  function PageId(uri: string): (r: Option<string>)
    ensures r.None? <==> !Contains(uri, PageMarker)
    ensures r.Some? ==> '/' !in r.value
    ensures r.Some? ==> r.value == Before(Before(After(uri, PageMarker).value, PageMarker), "/")
  {
    match Field(uri, PageMarker, 1)
    case None => None
    case Some(tail) =>
      var id := Split(tail, "/")[0];
      SplitHead(tail, "/");
      SplitPieces(tail, "/");
      ContainsChar(id, '/');
      Some(id)
  }

  /** `<prefix>ALL/PAGE/<id>/<rest>` yields `id` for an id without `/` and a URI with a
      single page marker. */
  lemma PageIdOfUri(prefix: string, id: string, rest: string)
    requires NoneStartsIn(prefix, PageMarker)
    requires !Contains(id + "/" + rest, PageMarker)
    requires '/' !in id
    ensures PageId(prefix + PageMarker + id + "/" + rest) == Some(id)
  {
    var tail := id + "/" + rest;
    assert prefix + PageMarker + id + "/" + rest == prefix + PageMarker + tail;
    SplitAfterPrefix(prefix, PageMarker, tail);
    ContainsChar(id, '/');
    assert "/"[..0] == [] && id + [] == id;
    SplitAfterPrefix(id, "/", rest);
  }

  /** The query parameters of a playback request: always `contentId`, and `channelId`
      only for a channel id that Python treats as true (present and non-empty). */
  function PlayParams(contentId: string, channelId: Option<string>): (params: map<string, string>)
    ensures "contentId" in params && params["contentId"] == contentId
    ensures "channelId" in params <==> channelId.Some? && channelId.value != ""
    ensures "channelId" in params ==> params["channelId"] == channelId.value
    ensures params.Keys <= {"contentId", "channelId"}
  {
    var base := map["contentId" := contentId];
    if channelId.Some? && channelId.value != "" then base["channelId" := channelId.value] else base
  }

  /** An empty channel id is dropped: the request is that of the main feed. */
  lemma EmptyChannelIsMainFeed(contentId: string)
    ensures PlayParams(contentId, Some("")) == PlayParams(contentId, None)
  {
  }

  /** The key of a query segment, `segment.split("=")[0]`. */
  function Key(segment: string): string
  {
    Split(segment, "=")[0]
  }

  /** The key and value the fallback parse reads from one query segment:
      `segment.split("=")[0]` and `segment.split("=")[1]`. `None` is the `IndexError` of a
      segment without `=`. The key runs up to the first `=`, the value from there to the
      next `=` or the end. */
  function QueryPair(segment: string): (r: Option<(string, string)>)
    ensures r.None? <==> '=' !in segment
    ensures r.Some? ==> r.value.0 == Key(segment)
    ensures r.Some? ==>
              var (key, value) := r.value;
              && '=' !in key && '=' !in value
              && |key| + 1 + |value| <= |segment|
              && segment[..|key|] == key && segment[|key|] == '='
              && segment[|key| + 1..|key| + 1 + |value|] == value
              && (|key| + 1 + |value| == |segment| || segment[|key| + 1 + |value|] == '=')
  {
    var parts := Split(segment, "=");
    SplitTail(segment, "=");
    ContainsChar(segment, '=');
    if |parts| < 2 then None
    else
      PairLayout(segment);
      Some((parts[0], parts[1]))
  }

  /** The first two `=`-pieces of a segment that has them: the segment starts with the
      key, `=` and the value, followed by the end or another `=`. */
  lemma PairLayout(segment: string)
    requires |Split(segment, "=")| >= 2
    ensures var key, value := Split(segment, "=")[0], Split(segment, "=")[1];
            && '=' !in key && '=' !in value
            && |key| + 1 + |value| <= |segment|
            && segment[..|key|] == key && segment[|key|] == '='
            && segment[|key| + 1..|key| + 1 + |value|] == value
            && (|key| + 1 + |value| == |segment| || segment[|key| + 1 + |value|] == '=')
  {
    var parts := Split(segment, "=");
    SplitPieces(segment, "=");
    var key, value := parts[0], parts[1];
    assert !Contains(key, "=") && !Contains(value, "=");
    ContainsChar(key, '=');
    ContainsChar(value, '=');
    JoinTwo(parts, "=");
    var n := |key| + 1 + |value|;
    assert segment[..n] == key + "=" + value;
    assert segment[..|key|] == segment[..n][..|key|];
    assert segment[|key| + 1..n] == segment[..n][|key| + 1..];
  }

  /** The join of at least two pieces starts with the first piece, the separator and the
      second piece, followed by the end or the separator again. */
  lemma JoinTwo(parts: seq<string>, sep: string)
    requires |parts| >= 2
    ensures var s := Join(parts, sep);
            var n := |parts[0]| + |sep| + |parts[1]|;
            && n <= |s| && s[..n] == parts[0] + sep + parts[1]
            && (|parts| == 2 ==> n == |s|)
            && (|parts| > 2 ==> n + |sep| <= |s| && s[n..n + |sep|] == sep)
  {
    var s := Join(parts, sep);
    assert s == parts[0] + sep + Join(parts[1..], sep);
    if |parts| > 2 {
      assert Join(parts[1..], sep) == parts[1] + sep + Join(parts[2..], sep);
    }
  }

  /** Python's `d[key] = value` run over `pairs` in order, starting from `{}`. */
  function Assign(pairs: seq<(string, string)>): map<string, string>
  {
    if pairs == [] then map[]
    else
      var (key, value) := pairs[|pairs| - 1];
      Assign(pairs[..|pairs| - 1])[key := value]
  }

  /** Assigning one more pair updates the dictionary built so far. */
  lemma AssignSnoc(pairs: seq<(string, string)>, pair: (string, string))
    ensures Assign(pairs + [pair]) == Assign(pairs)[pair.0 := pair.1]
  {
    assert (pairs + [pair])[..|pairs|] == pairs;
  }

  /** The keys of the built dictionary are the keys assigned. */
  lemma {:induction false} AssignKeys(pairs: seq<(string, string)>)
    ensures forall key :: key in Assign(pairs) <==> exists i :: 0 <= i < |pairs| && pairs[i].0 == key
  {
    if pairs != [] {
      var n := |pairs|;
      var init := pairs[..n - 1];
      AssignKeys(init);
      assert Assign(pairs).Keys == Assign(init).Keys + {pairs[n - 1].0};
      assert forall i :: 0 <= i < n - 1 ==> init[i] == pairs[i];
    }
  }

  /** Each key holds the value of its LAST assignment: a later duplicate key overwrites an
      earlier one. */
  lemma {:induction false} AssignLastWins(pairs: seq<(string, string)>, i: nat)
    requires i < |pairs|
    requires forall j :: i < j < |pairs| ==> pairs[j].0 != pairs[i].0
    ensures pairs[i].0 in Assign(pairs) && Assign(pairs)[pairs[i].0] == pairs[i].1
  {
    var n := |pairs|;
    var init := pairs[..n - 1];
    if i < n - 1 {
      assert init[i] == pairs[i];
      assert forall j :: i < j < n - 1 ==> init[j] == pairs[j];
      AssignLastWins(init, i);
    }
  }

  /** The key/value pairs of segments that all contain `=`. */
  function Pairs(segments: seq<string>): seq<(string, string)>
    requires forall i :: 0 <= i < |segments| ==> '=' in segments[i]
  {
    seq(|segments|, i requires 0 <= i < |segments| => QueryPair(segments[i]).value)
  }

  /** The pairs of one more segment. */
  lemma PairsSnoc(segments: seq<string>, i: nat)
    requires i < |segments|
    requires forall k :: 0 <= k <= i ==> '=' in segments[k]
    ensures Pairs(segments[..i + 1]) == Pairs(segments[..i]) + [QueryPair(segments[i]).value]
  {
    var left, right := Pairs(segments[..i + 1]), Pairs(segments[..i]) + [QueryPair(segments[i]).value];
    forall k | 0 <= k < i + 1 ensures left[k] == right[k] {
      assert segments[..i + 1][k] == segments[k];
      if k < i {
        assert segments[..i][k] == segments[k];
      }
    }
  }

  /** The dictionary the fallback parse builds from its `&`-segments, in order; `None`
      (the `IndexError`) when some segment has no `=`. */
  function QueryMap(segments: seq<string>): Option<map<string, string>>
  {
    if forall i :: 0 <= i < |segments| ==> '=' in segments[i] then Some(Assign(Pairs(segments)))
    else None
  }

  /** The text after the first `?` up to the next `?`, cut at every `&`:
      `uri.split("?")[1].split("&")`; `None` when the URI has no `?`. */
  function QuerySegments(uri: string): Option<seq<string>>
  {
    match Field(uri, "?", 1)
    case None => None
    case Some(query) => Some(Split(query, "&"))
  }

  /** The fallback query parse of a tray's `uriOriginal`. */
  function QueryParams(uri: string): Option<map<string, string>>
  {
    match QuerySegments(uri)
    case None => None
    case Some(segments) => QueryMap(segments)
  }

  /** The fallback parse as the source runs it: fill a dictionary segment by segment.
      `None` is the `IndexError` of a URI without `?` or of a segment without `=`. */
  method ParseQuery(uri: string) returns (params: Option<map<string, string>>)
    ensures params == QueryParams(uri)
  {
    var query := Field(uri, "?", 1);
    if query.None? {
      return None;
    }
    var segments := Split(query.value, "&");
    assert QueryParams(uri) == QueryMap(segments);
    var m: map<string, string> := map[];
    var i := 0;
    while i < |segments|
      invariant 0 <= i <= |segments|
      invariant forall k :: 0 <= k < i ==> '=' in segments[k]
      invariant m == Assign(Pairs(segments[..i]))
    {
      var pair := QueryPair(segments[i]);
      if pair.None? {
        assert '=' !in segments[i];
        return None;
      }
      PairsSnoc(segments, i);
      AssignSnoc(Pairs(segments[..i]), pair.value);
      m := m[pair.value.0 := pair.value.1];
      i := i + 1;
    }
    assert segments[..i] == segments;
    params := Some(m);
  }

  /** The query segment `key=value`. */
  function Segment(pair: (string, string)): string
  {
    pair.0 + "=" + pair.1
  }

  function Segments(pairs: seq<(string, string)>): seq<string>
  {
    seq(|pairs|, i requires 0 <= i < |pairs| => Segment(pairs[i]))
  }

  /** A character in neither the pieces nor the separator is not in their join. */
  lemma {:induction false} JoinLacks(parts: seq<string>, sep: string, c: char)
    requires c !in sep
    requires forall i :: 0 <= i < |parts| ==> c !in parts[i]
    ensures c !in Join(parts, sep)
  {
    if |parts| > 1 {
      JoinLacks(parts[1..], sep, c);
    }
  }

  /** A one-character separator is border-free. */
  lemma OneCharBorderFree(c: char)
    ensures BorderFree([c])
  {
  }

  /** A one-character separator cannot start inside a text that lacks it. */
  lemma OneCharNoneStartsIn(a: string, c: char)
    requires c !in a
    ensures NoneStartsIn(a, [c])
  {
    assert a + [c][..0] == a;
    ContainsChar(a, c);
  }

  /** A segment `key=value` is read back as the pair, for a key and a value without `=`. */
  lemma QueryPairOfSegment(pair: (string, string))
    requires '=' !in pair.0 && '=' !in pair.1
    ensures QueryPair(Segment(pair)) == Some(pair)
  {
    OneCharNoneStartsIn(pair.0, '=');
    SplitAfterPrefix(pair.0, "=", pair.1);
    ContainsChar(pair.1, '=');
    assert Split(pair.1, "=") == [pair.1];
  }

  /** The segments of `<prefix>?<query>` are the `&`-pieces of `query`, for a prefix and a
      query without `?`. */
  lemma QuerySegmentsOfUri(prefix: string, query: string)
    requires '?' !in prefix && '?' !in query
    ensures QuerySegments(prefix + "?" + query) == Some(Split(query, "&"))
  {
    OneCharNoneStartsIn(prefix, '?');
    SplitAfterPrefix(prefix, "?", query);
    ContainsChar(query, '?');
    assert Before(query, "?") == query;
  }

  /** The dictionary built from segments `key=value` assigns the pairs, for keys and values
      without `=`. */
  lemma QueryMapOfSegments(pairs: seq<(string, string)>)
    requires forall i :: 0 <= i < |pairs| ==> '=' !in pairs[i].0 && '=' !in pairs[i].1
    ensures QueryMap(Segments(pairs)) == Some(Assign(pairs))
  {
    var segments := Segments(pairs);
    forall i | 0 <= i < |pairs| ensures QueryPair(segments[i]) == Some(pairs[i]) {
      QueryPairOfSegment(pairs[i]);
    }
    assert Pairs(segments) == pairs;
  }

  /** The fallback parse of `<prefix>?k1=v1&k2=v2&...`, with at least one pair, is the
      dictionary that assigns the pairs in order (so each key holds its last value), for
      keys and values without `&`, `=` or `?` and a prefix without `?`. */
  lemma QueryParamsOfUri(prefix: string, pairs: seq<(string, string)>)
    requires '?' !in prefix
    requires pairs != []
    requires forall i :: 0 <= i < |pairs| ==>
               '&' !in pairs[i].0 && '=' !in pairs[i].0 && '?' !in pairs[i].0 &&
               '&' !in pairs[i].1 && '=' !in pairs[i].1 && '?' !in pairs[i].1
    ensures QueryParams(prefix + "?" + Join(Segments(pairs), "&")) == Some(Assign(pairs))
  {
    var segments := Segments(pairs);
    assert |segments| == |pairs| >= 1;
    forall i | 0 <= i < |segments| ensures '?' !in segments[i] && !Contains(segments[i], "&") {
      assert segments[i] == pairs[i].0 + "=" + pairs[i].1;
      ContainsChar(segments[i], '&');
    }
    JoinLacks(segments, "&", '?');
    QuerySegmentsOfUri(prefix, Join(segments, "&"));
    OneCharBorderFree('&');
    SplitJoin(segments, "&");
    QueryMapOfSegments(pairs);
  }
}
