/** The whole run of `main()`: discover channels, visit each, write the
    playlist (convert.py:61-193). */
module Scraper {
  import opened Wrappers
  import opened Text
  import opened Channels
  import opened Sniffing
  import opened Aggregate
  import opened Playlist

  /** The playlist lines written after visiting `chs`. */
  function Write(chs: seq<Channel>, visit: Channel -> Visit): (r: Option<seq<string>>)
    ensures r.Some? <==> Collect(chs, visit) != []
    ensures r.Some? ==> Some(r.value) == Render(Collect(chs, visit))
    ensures r.Some? ==> 3 <= |r.value| <= 1 + 2 * |chs| && |r.value| % 2 == 1
    ensures r.Some? ==> r.value[0] == Header
    ensures r.Some? ==> forall k :: 0 <= k && 2 + 2 * k < |r.value| ==>
              Contains(r.value[2 + 2 * k], ".m3u8") && Contains(r.value[2 + 2 * k], "http")
  {
    var streams := Collect(chs, visit);
    if streams == [] then None
    else
      RenderedStreams(streams);
      assert |streams| <= |chs|;
      Render(streams)
  }

  /** The playlist rendered for gathered streams: a header and, for every
      stream, its two lines, each link holding `.m3u8` and `http`. */
  lemma RenderedStreams(streams: seq<Stream>)
    requires streams != []
    requires forall k :: 0 <= k < |streams| ==>
               Contains(streams[k].link, ".m3u8") && Contains(streams[k].link, "http")
    ensures Render(streams).Some?
    ensures 3 <= |Render(streams).value| == 1 + 2 * |streams|
    ensures |Render(streams).value| % 2 == 1
    ensures Render(streams).value[0] == Header
    ensures forall k :: 0 <= k && 2 + 2 * k < |Render(streams).value| ==>
              Contains(Render(streams).value[2 + 2 * k], ".m3u8")
              && Contains(Render(streams).value[2 + 2 * k], "http")
  {
    RenderedLinksContain(streams, ".m3u8");
    RenderedLinksContain(streams, "http");
  }

  /** The playlist lines written by one run, or `None` when no file is
      written. `buttons` is `None` when starting the browser or reaching the
      channel grid failed (convert.py:66-107, 110): the global handler then
      runs with no streams gathered. `quitOk` is false when `driver.quit()`
      raises in the `finally` block (convert.py:185-186); the exception
      then leaves `main()` before the file is opened. */
  function Run(buttons: Option<seq<Button>>, resolve: string -> Option<string>, visit: Channel -> Visit, quitOk: bool): (r: Option<seq<string>>)
    ensures r.Some? <==> && buttons.Some? && quitOk
                         && Collect(BuildChannels(buttons.value, resolve), visit) != []
    ensures r.Some? ==> buttons.Some? && Some(r.value) == Render(Collect(BuildChannels(buttons.value, resolve), visit))
    ensures r.Some? ==> buttons.Some? && 3 <= |r.value| <= 1 + 2 * |buttons.value| && |r.value| % 2 == 1
    ensures r.Some? ==> r.value[0] == Header
    ensures r.Some? ==> forall k :: 0 <= k && 2 + 2 * k < |r.value| ==>
              Contains(r.value[2 + 2 * k], ".m3u8") && Contains(r.value[2 + 2 * k], "http")
  {
    match buttons
    case None => None
    case Some(bs) => if quitOk then Write(BuildChannels(bs, resolve), visit) else None
  }

  /** When no page the loop visited requested a responded `.m3u8` URL over
      `http`, no playlist file is written (convert.py:188). Channels after
      the one whose error handler lost the session are never visited, so
      what they would have yielded does not matter. */
  lemma {:induction false} NothingWrittenWithoutManifest(chs: seq<Channel>, visit: Channel -> Visit)
    requires forall k :: 0 <= k < Reached(chs, visit) ==> Resolve(chs[k], visit(chs[k])).None?
    ensures Collect(chs, visit) == []
    ensures Render(Collect(chs, visit)).None?
    ensures Write(chs, visit).None?
    decreases |chs|
  {
    if chs != [] {
      assert Resolve(chs[0], visit(chs[0])).None?;
      if visit(chs[0]).sessionAlive {
        var rest := chs[1..];
        forall k | 0 <= k < Reached(rest, visit)
          ensures Resolve(rest[k], visit(rest[k])).None?
        {
          assert rest[k] == chs[k + 1];
        }
        NothingWrittenWithoutManifest(rest, visit);
      }
    }
  }

  /** The playlist written lists exactly the streams gathered, in order. */
  lemma RunWritesCollected(bs: seq<Button>, resolve: string -> Option<string>, visit: Channel -> Visit)
    requires Collect(BuildChannels(bs, resolve), visit) != []
    ensures Run(Some(bs), resolve, visit, true).Some?
    ensures Parse(Run(Some(bs), resolve, visit, true).value) == Some(Collect(BuildChannels(bs, resolve), visit))
  {
    var streams := Collect(BuildChannels(bs, resolve), visit);
    assert Run(Some(bs), resolve, visit, true) == Write(BuildChannels(bs, resolve), visit) == Render(streams);
    RenderRoundTrip(streams);
  }

  /** Read from the file's text, the playlist gives back the streams
      gathered, provided no channel name or link holds a `"\n"`. */
  lemma RunFileReadsBack(bs: seq<Button>, resolve: string -> Option<string>, visit: Channel -> Visit)
    requires Collect(BuildChannels(bs, resolve), visit) != []
    requires forall k :: 0 <= k < |Collect(BuildChannels(bs, resolve), visit)| ==>
               '\n' !in Collect(BuildChannels(bs, resolve), visit)[k].name
               && '\n' !in Collect(BuildChannels(bs, resolve), visit)[k].link
    ensures Run(Some(bs), resolve, visit, true).Some?
    ensures Parse(SplitLines(FileText(Run(Some(bs), resolve, visit, true).value)))
            == Some(Collect(BuildChannels(bs, resolve), visit))
  {
    var streams := Collect(BuildChannels(bs, resolve), visit);
    assert Run(Some(bs), resolve, visit, true) == Write(BuildChannels(bs, resolve), visit) == Render(streams);
    FileRoundTrip(streams);
  }
}
