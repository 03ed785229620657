# TimStreams sports playlist scraper — Dafny model

`convert.py` drives a headless Chrome through timstreams.site. It opens the
"24/7 Channels" grid, collects the watch buttons into a deduplicated
channel list, and visits each channel page while recording its network
requests. From each request log it picks an HLS manifest (`.m3u8`) URL and
writes the links it found to an M3U playlist.

This project models the pure rules inside `main()`. The browser is replaced
by oracle inputs.

- **Text** (`text.dfy`): Python's substring test `t in s`, `str.strip()`
  (over the characters `str.isspace()` accepts) and `str.replace(t, "")`.
- **Onclick** (`onclick.dfy`): the regular expression `['"](.*?)['"]` as a
  one-pass scan. It is proved equal to the leftmost-match reading of the
  expression: the leftmost quote whose next quote comes before any newline.
- **Channels** (`channels.dfy`): the loop over watch buttons. A `Button`
  carries what the browser reports: visibility, `onclick` text and card
  heading, each `None` when the lookup raised. The resulting channel list
  is proved to be exactly the offered channels with repeated URLs dropped,
  first occurrence winning, in order of first appearance.
- **Sniffing** (`sniffing.dfy`): the scan of the request log. It is proved
  equal to an independent rule: the first responded `.m3u8`/`http` URL
  that mentions `master` or `index`, else the LAST responded `.m3u8`/`http`
  URL, else nothing.
- **Seqs** (`seqs.dfy`): mapping a function over a sequence, shared by
  the two loops.
- **Aggregate** (`aggregate.dfy`): the per-channel loop. A visit is an
  oracle `Channel -> Visit` giving the captured request log (or a failure),
  plus whether the browser survived the error handler.
- **Playlist** (`playlist.dfy`): the playlist file as a sequence of lines,
  with a reader for the same format and a round-trip proof.
- **Scraper** (`scraper.dfy`): the whole run, from discovery to the lines
  written.

Notes on what the code does:

- Among the responded request URLs containing `.m3u8` and `http`, the scan
  stops at the first one that also contains `master` or `index`. Without
  such a URL the last match in the log is kept.
- The page source is never searched and URLs are taken as logged.
- Channels are visited one after another on one browser. The request log
  is cleared before each visit (convert.py:138), so `valid_streams` is in
  channel order.
- An empty channel list ends the run quietly: the loop runs zero times and
  no file is written.
- The group label is the fixed text `TimStreams Sports`.
- `driver.quit()` runs in the `finally` block before the file is written,
  so a `quit` that raises means no file at all.

## Model

| member | source | states |
|---|---|---|
| Text.Strip | convert.py:121 | the result of `strip()` has no whitespace at either end and is no longer than the input |
| Text.StripRemovesOnlyOuterWhitespace | convert.py:121 | `strip()` removes only whitespace, and only at the two ends: the input is whitespace, the result, whitespace |
| Text.RemoveAll | convert.py:121 | `replace("24/7:", "")` never lengthens the text |
| Text.RemoveAllAbsent | convert.py:121 | `replace(t, "")` leaves text in which `t` does not occur unchanged |
| Text.RemoveAllOnlyDeletes | convert.py:121 | `replace(t, "")` only deletes characters: the result's multiset of characters is within the input's |
| Text.RemoveAllDeletesFirst | convert.py:121 | `replace(t, "")` deletes the first occurrence of `t`, keeps the text in front of it unchanged and carries on with the rest |
| Text.ContainsAt | convert.py:164 | the recursive substring test agrees with Python's `t in s`: `t` starts at some position of `s` |
| Onclick.Scan | convert.py:123 | the single pass returns the leftmost start where the expression matches, with its closing quote, and returns nothing exactly when no start matches |
| Onclick.FirstQuoted | convert.py:123 | `None` exactly when the expression matches nowhere; otherwise the group is the text between the leftmost matching quote and the next quote, and so is shorter than the `onclick` text |
| Onclick.FirstQuotedAt | convert.py:123 | a match at a start before which nothing matches is the one `re.search` reports: a match is determined by its start |
| Onclick.FirstQuotedIsPlain | convert.py:123 | the extracted target contains no quote character and no newline, because `.` stops at line breaks |
| Onclick.FirstQuotedFindsLeading | convert.py:123 | a quoted, newline-free target preceded by quote-free text is exactly what is extracted |
| Channels.CleanName | convert.py:121 | a cleaned card name has no leading or trailing whitespace and is no longer than the heading |
| Channels.CleanNameDropsLabel | convert.py:121 | a heading of the form `24/7:`, spaces, name is cleaned to exactly the name |
| Channels.Candidate | convert.py:116-129 | a button offers a channel exactly when the loop does not pass it over; the channel's name is the cleaned card heading and its URL is what `urljoin` makes of the quoted `onclick` target |
| Channels.AddChannel | convert.py:126-127 | the list is unchanged exactly when the URL is already listed, and otherwise the channel itself is appended; the URL is listed afterwards and distinct URLs stay distinct |
| Channels.Include | convert.py:116-129 | a passed-over button leaves the list unchanged; otherwise the offered URL is listed afterwards, and the list changes, by appending exactly the offered channel, only when that URL was new |
| Channels.Fold | convert.py:113-129 | the loop's list has at most one channel per button and never two with the same URL |
| Channels.FoldFirstSeen | convert.py:126-127 | folding the offers keeps exactly the first offer of each URL, in order of first appearance |
| Channels.FoldIgnoresNone | convert.py:116-117 | a passed-over button can be removed from anywhere without changing the list |
| Channels.BuildChannels | convert.py:113-129 | the channel list never holds two entries with the same URL and has no more entries than there are buttons |
| Channels.BuildChannelsFirstSeen | convert.py:113-129 | the list is the offered channels with repeats dropped: every offered URL is present, each entry is the first channel offered with its URL, and order of first appearance is kept |
| Channels.SkippedButtonChangesNothing | convert.py:116-129 | a hidden button, one whose lookups raise, one with no quoted `onclick` target, or one whose target `urljoin` rejects can be removed from anywhere in the button list without changing the result |
| Channels.RepeatedUrlChangesNothing | convert.py:126 | a button whose resolved URL is already listed leaves the list unchanged |
| Sniffing.SelectStream | convert.py:156-167 | `found_link` after the scan, starting from `None`; its contract is carried by Sniffing.SelectStreamMatchesReference, which equates it with the independent selection rule |
| Sniffing.SelectStreamMatchesReference | convert.py:156-167 | the scan equals the rule "first preferred qualifying URL, else last qualifying URL, else none" |
| Sniffing.SelectNoneIff | convert.py:159-165 | no link is found exactly when no record has a response with a URL containing both `.m3u8` and `http` |
| Sniffing.SelectSound | convert.py:160-165 | a link found is the URL of a responded record and contains `.m3u8` and `http` |
| Sniffing.SelectPrefersFirstDecisive | convert.py:165-167 | if some qualifying URL contains `master` or `index`, the first such URL in log order is chosen |
| Sniffing.SelectTakesLastOtherwise | convert.py:164-165 | if no qualifying URL contains `master` or `index`, the last qualifying URL in log order is chosen |
| Sniffing.SelectStopsAtDecisive | convert.py:166-167 | records after the first preferred qualifying record are never examined: appending records does not change the choice |
| Sniffing.MasterBetweenSegments | convert.py:159-167 | for a segment URL, a master-playlist URL and another segment URL, the master playlist is chosen |
| Aggregate.Resolve | convert.py:156-173 | a visit yields an entry exactly when its log has a qualifying record; the entry keeps the channel's name, and its link is the one the selection rule picks (first preferred qualifying URL, else last qualifying URL), a responded `.m3u8`/`http` URL |
| Aggregate.ResolveAllBySource | convert.py:134-171 | entries come from strictly increasing channel positions (at most one per channel, in channel order), and a channel contributes exactly when its visit yields an entry |
| Aggregate.Reached | convert.py:177-181 | the loop visits every channel up to and including the first one whose error handler loses the session |
| Aggregate.Collect | convert.py:134-180 | `valid_streams` has at most one entry per channel, and every link contains `.m3u8` and `http` |
| Aggregate.CollectIsResolveAllReached | convert.py:134-181 | `valid_streams` is exactly the entries of the channels the loop reached, in channel order |
| Aggregate.CollectWhenSessionSurvives | convert.py:134-180 | when no visit loses the session, every channel is visited and contributes its entry |
| Playlist.EntryLines | convert.py:191-193 | each stream becomes two lines, its `#EXTINF` line with the name and then its link, in stream order |
| Playlist.Render | convert.py:188-193 | no file for an empty list; otherwise the `write` calls are `#EXTM3U` followed by exactly two lines per stream, 1+2n lines in all |
| Playlist.RenderRoundTrip | convert.py:188-193 | reading back the sequence of written lines gives the streams, with names and links intact and in order |
| Playlist.FileText | convert.py:189-193 | the text the `write` calls produce: empty exactly when nothing was written, and otherwise ending in `"\n"`, since every line is written with its terminator |
| Playlist.SplitFileText | convert.py:189-193 | lines holding no `"\n"` of their own, each written followed by `"\n"`, are read back from the file text exactly as written |
| Playlist.FileRoundTrip | convert.py:188-193 | when no name or link holds a `"\n"`, reading the file text back gives the streams, names and links intact and in order |
| Playlist.ReadNamesHaveNoNewline | convert.py:192 | whatever the file holds, no name read back from it contains a `"\n"` |
| Playlist.NewlineInNameIsLost | convert.py:192 | a stream whose name holds a `"\n"` is not read back from the file: its `#EXTINF` line is split in two |
| Scraper.Write | convert.py:134-193 | lines are written exactly when `valid_streams` is non-empty, and they are the rendering of `valid_streams`: at most 1 + 2 × (channels) lines, starting with `#EXTM3U`, every link line containing `.m3u8` and `http` |
| Scraper.Run | convert.py:61-193 | a playlist is written exactly when the grid was reached, `driver.quit()` returned and `valid_streams` is non-empty, and it is the rendering of `valid_streams`; it starts with `#EXTM3U`, has an odd number of lines, between 3 and 1 + 2 × (number of buttons), and every link line contains `.m3u8` and `http` |
| Scraper.NothingWrittenWithoutManifest | convert.py:134-188 | when no page the loop actually visited yields a qualifying request, `valid_streams` stays empty and `Write` produces no file, whatever the unvisited channels would have yielded |
| Scraper.RunWritesCollected | convert.py:184-193 | when streams were gathered and `quit` returned, a file is written and it reads back as exactly those streams |
| Scraper.RunFileReadsBack | convert.py:184-193 | when streams were gathered, `quit` returned and no name or link holds a `"\n"`, the file text reads back as exactly those streams |

## Left out

- The auto-installer, `setup_driver`, ChromeDriverManager and the CDP
  command (convert.py:9-59) are process and package I/O.
- Navigation, waits, the XPath lookups, the "Sports" dropdown and its
  fallback click (convert.py:72-107) are browser interaction. They are
  represented only by their outcome: `Run` receives the button list, or
  `None` when reaching the grid failed.
- Per-channel navigation, iframe switching and video clicking
  (convert.py:138-154) are browser interaction. They are represented by
  the `Visit` oracle.
- `time.sleep` and logging have no functional effect.
- `driver.quit()` (convert.py:185-186) is represented only by whether it
  raised: the `quitOk` parameter of `Run`. When it raises, no file is
  written.
- `urljoin(BASE_URL, ·)` (convert.py:125) is a library call that resolves a
  relative reference. It is the function parameter `resolve`, which gives
  `None` where `urljoin` raises (a malformed bracketed host, say). The bare
  `except` at convert.py:128 then skips the button. Deduplication is over
  `resolve`'s output.
- Writing the file (convert.py:189-193) is modelled as the sequence of
  `write` calls and as the text they produce, each line followed by
  `"\n"`. The UTF-8 encoding and the platform's newline translation in
  text mode are not modelled. The reader splits at `"\n"` only.
- Playlist.RenderRoundTrip: the round trip is stated for the sequence of
  `write` calls. For the file's text it holds only when no channel name or
  link contains a `"\n"` (Playlist.FileRoundTrip). `CleanName` keeps
  newlines inside a heading, and a card heading with a line break would
  give one, so such a playlist is not read back
  (Playlist.NewlineInNameIsLost).
- Aggregate.Resolve: `if found_link:` tests string truthiness. The model
  tests whether a link was found at all. The two agree because a chosen
  link contains `.m3u8` and so is never empty.
- Aggregate.Collect: the visit oracle is a function of the channel, so two
  equal channels would get equal outcomes. The channel list never holds
  two entries with the same URL, so this cannot arise.
- Channels.CleanNameDropsLabel: stated for a non-empty name. For a heading
  that is only the label, the result is also empty, but no lemma states it.
- Characters are Unicode scalar values. Selenium's `.text` normalisation is
  part of the oracle.
