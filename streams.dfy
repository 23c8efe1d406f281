/** `check_additional_streams`: a session with additional streams (onboard cameras, team
    radio, data) offers a menu whose first line is the main feed and whose line `k >= 2` is
    additional stream `k - 2`, labelled with the channel id cut out of its `playbackUrl`.
    The menu's HTTP fetch is left out: the `additionalStreams` list (or its absence) is a
    parameter, and so is the user's ordinal. */
module Streams {
  import opened PyStr
  import opened Urls
  import opened Menu

  /** One entry of `additionalStreams`. */
  datatype Stream = Stream(playbackUrl: string, streamType: string, title: string)

  /** What `play_content` is called with. */
  datatype Play = Play(contentId: string, channelId: Option<string>)

  /** The text of the main feed's line. */
  function MainFeedText(contentId: string): string
  {
    contentId + "/nochannel - Main Feed"
  }

  /** The text of an additional stream's line. */
  function StreamText(contentId: string, channelId: string, s: Stream): string
  {
    contentId + "/" + channelId + " - " + s.streamType + " - " + s.title
  }

  /** `check_additional_streams`. Without an `additionalStreams` list the main feed plays
      at once. Otherwise the menu is printed, extracting every stream's channel id (a
      `None` play is the `IndexError` of the first stream whose id cannot be extracted;
      the lines printed before it stay), and then ordinal 1 plays the main feed and
      ordinal `k >= 2` plays stream `k - 2` on the channel printed on line `k`. */
  method CheckAdditionalStreams(contentId: string, additional: Option<seq<Stream>>, choice: int)
    returns (lines: seq<Line>, play: Option<Play>)
    requires additional.Some? ==> 1 <= choice <= |additional.value| + 1
    ensures additional.None? ==> lines == [] && play == Some(Play(contentId, None))
    ensures additional.Some? ==>
              var streams := additional.value;
              && 1 <= |lines| <= |streams| + 1
              && lines[0] == Line(1, MainFeedText(contentId))
              && (forall j :: 0 <= j < |lines| - 1 ==>
                    ChannelId(streams[j].playbackUrl).Some? &&
                    lines[j + 1] == Line(j + 2, StreamText(contentId, ChannelId(streams[j].playbackUrl).value, streams[j])))
              && (play.Some? <==> forall j :: 0 <= j < |streams| ==> ChannelId(streams[j].playbackUrl).Some?)
              && (play.None? ==> ChannelId(streams[|lines| - 1].playbackUrl).None?)
              && (play.Some? ==> |lines| == |streams| + 1)
    ensures additional.Some? && play.Some? ==>
              play.value == Play(contentId, if choice == 1 then None else ChannelId(additional.value[choice - 2].playbackUrl))
    ensures additional.Some? && play.Some? && choice >= 2 ==>
              play.value.channelId.Some? &&
              lines[choice - 1] == Line(choice, StreamText(contentId, play.value.channelId.value, additional.value[choice - 2]))
  {
    if additional.None? {
      return [], Some(Play(contentId, None));
    }
    var streams := additional.value;
    lines := [Line(1, MainFeedText(contentId))];
    var counter := 2;
    for i := 0 to |streams|
      invariant counter == i + 2
      invariant |lines| == i + 1 && lines[0] == Line(1, MainFeedText(contentId))
      invariant forall j :: 0 <= j < i ==>
                  ChannelId(streams[j].playbackUrl).Some? &&
                  lines[j + 1] == Line(j + 2, StreamText(contentId, ChannelId(streams[j].playbackUrl).value, streams[j]))
    {
      var channelId := ChannelId(streams[i].playbackUrl);
      if channelId.None? {
        return lines, None;
      }
      lines := lines + [Line(counter, StreamText(contentId, channelId.value, streams[i]))];
      counter := counter + 1;
    }
    if choice != 1 {
      var index := choice - 2;
      play := Some(Play(contentId, ChannelId(streams[index].playbackUrl)));
    } else {
      play := Some(Play(contentId, None));
    }
  }
}
