/** The M3U playlist written at the end of the run (convert.py:188-193),
    as its sequence of lines, together with a reader for the same format. */
module Playlist {
  import opened Wrappers
  import opened Text
  import opened Aggregate

  const Header: string := "#EXTM3U"

  /** Everything on an `#EXTINF` line before the channel name. */
  const InfoPrefix: string := "#EXTINF:-1 group-title=\"TimStreams Sports\","

  function InfoLine(name: string): string
  {
    InfoPrefix + name
  }

  /** The two lines written per stream, in order. */
  function EntryLines(streams: seq<Stream>): (r: seq<string>)
    ensures |r| == 2 * |streams|
    ensures forall k :: 0 <= k < |streams| ==>
              r[2 * k] == InfoLine(streams[k].name) && r[2 * k + 1] == streams[k].link
    decreases |streams|
  {
    if streams == [] then []
    else
      var n := |streams| - 1;
      var init := EntryLines(streams[..n]);
      var r := init + [InfoLine(streams[n].name), streams[n].link];
      assert forall k :: 0 <= k < n ==> streams[..n][k] == streams[k];
      r
  }

  /** The file's lines: `None` when there are no streams, since the file is
      then not written at all. */
  function Render(streams: seq<Stream>): (r: Option<seq<string>>)
    ensures r.None? <==> streams == []
    ensures r.Some? ==> && |r.value| == 1 + 2 * |streams|
                        && r.value[0] == Header
                        && forall k :: 0 <= k < |streams| ==>
                             r.value[1 + 2 * k] == InfoLine(streams[k].name)
                             && r.value[2 + 2 * k] == streams[k].link
  {
    if streams == [] then None else Some([Header] + EntryLines(streams))
  }

  /** A text every link contains is contained in every link line of the
      written playlist. */
  lemma RenderedLinksContain(streams: seq<Stream>, t: string)
    requires streams != []
    requires forall k :: 0 <= k < |streams| ==> Contains(streams[k].link, t)
    ensures forall k :: 0 <= k && 2 + 2 * k < |Render(streams).value| ==> Contains(Render(streams).value[2 + 2 * k], t)
  {
    var r := Render(streams).value;
    forall k | 0 <= k && 2 + 2 * k < |r|
      ensures Contains(r[2 + 2 * k], t)
    {
      assert r[2 + 2 * k] == streams[k].link;
    }
  }

  /** Reads back pairs of lines: an `#EXTINF` line, then the link. */
  function ParseEntries(lines: seq<string>): (r: Option<seq<Stream>>)
    ensures r.Some? ==> 2 * |r.value| == |lines|
    decreases |lines|
  {
    if lines == [] then Some([])
    else if |lines| == 1 then None
    else
      var n := |lines| - 2;
      if !(InfoPrefix <= lines[n]) then None
      else
        match ParseEntries(lines[..n])
        case None => None
        case Some(init) => Some(init + [Stream(lines[n][|InfoPrefix|..], lines[n + 1])])
  }

  /** Reads a whole playlist: the header line, then the entries. */
  function Parse(lines: seq<string>): (r: Option<seq<Stream>>)
    ensures r.Some? ==> |lines| == 1 + 2 * |r.value| && lines[0] == Header
  {
    if lines == [] || lines[0] != Header then None else ParseEntries(lines[1..])
  }

  /** What the reader accepts is exactly pairs of an `#EXTINF` line and a
      link line, each entry taken from its own pair. */
  lemma {:induction false} ParseEntriesPositions(lines: seq<string>)
    ensures ParseEntries(lines).Some? ==>
              forall k :: 0 <= k < |ParseEntries(lines).value| ==>
                lines[2 * k] == InfoLine(ParseEntries(lines).value[k].name)
                && lines[2 * k + 1] == ParseEntries(lines).value[k].link
    decreases |lines|
  {
    if |lines| >= 2 && ParseEntries(lines).Some? {
      var n := |lines| - 2;
      var init := lines[..n];
      ParseEntriesPositions(init);
      var r := ParseEntries(lines).value;
      var front := ParseEntries(init).value;
      assert r == front + [Stream(lines[n][|InfoPrefix|..], lines[n + 1])];
      assert InfoPrefix <= lines[n];
      assert lines[n] == InfoPrefix + lines[n][|InfoPrefix|..];
      forall k | 0 <= k < |r|
        ensures lines[2 * k] == InfoLine(r[k].name) && lines[2 * k + 1] == r[k].link
      {
        if k < |front| {
          assert r[k] == front[k];
          assert lines[2 * k] == init[2 * k] && lines[2 * k + 1] == init[2 * k + 1];
        }
      }
    }
  }

  lemma ParsePositions(lines: seq<string>)
    ensures Parse(lines).Some? ==>
              forall k :: 0 <= k < |Parse(lines).value| ==>
                lines[1 + 2 * k] == InfoLine(Parse(lines).value[k].name)
                && lines[2 + 2 * k] == Parse(lines).value[k].link
  {
    if Parse(lines).Some? {
      ParseEntriesPositions(lines[1..]);
      var r := Parse(lines).value;
      forall k | 0 <= k < |r|
        ensures lines[1 + 2 * k] == InfoLine(r[k].name) && lines[2 + 2 * k] == r[k].link
      {
        assert lines[1 + 2 * k] == lines[1..][2 * k] && lines[2 + 2 * k] == lines[1..][2 * k + 1];
      }
    }
  }

  lemma {:induction false} ParseEntryLines(streams: seq<Stream>)
    ensures ParseEntries(EntryLines(streams)) == Some(streams)
    decreases |streams|
  {
    if streams != [] {
      var n := |streams| - 1;
      var lines := EntryLines(streams);
      assert lines[..2 * n] == EntryLines(streams[..n]);
      assert lines[2 * n] == InfoLine(streams[n].name);
      assert InfoPrefix <= lines[2 * n];
      assert lines[2 * n][|InfoPrefix|..] == streams[n].name;
      ParseEntryLines(streams[..n]);
      assert streams == streams[..n] + [streams[n]];
    }
  }

  /** Every stream written can be read back, names and links intact and in
      order. */
  lemma RenderRoundTrip(streams: seq<Stream>)
    requires streams != []
    ensures Parse(Render(streams).value) == Some(streams)
  {
    var lines := Render(streams).value;
    assert lines[1..] == EntryLines(streams);
    ParseEntryLines(streams);
  }

  /** The file's contents: every written line followed by `"\n"`. */
  function FileText(lines: seq<string>): (r: string)
    ensures lines == [] <==> r == []
    ensures r != [] ==> r[|r| - 1] == '\n'
    decreases |lines|
  {
    if lines == [] then [] else lines[0] + "\n" + FileText(lines[1..])
  }

  /** Position of the first `"\n"` in `s`, or `|s|` when there is none. */
  function LineEnd(s: string): (i: nat)
    ensures i <= |s|
    ensures i < |s| ==> s[i] == '\n'
    ensures forall k :: 0 <= k < i ==> s[k] != '\n'
    decreases |s|
  {
    if s == [] || s[0] == '\n' then 0 else 1 + LineEnd(s[1..])
  }

  /** How a reader sees a file: its `"\n"`-terminated lines, with a last
      line that lacks the terminator still counted as a line. */
  function SplitLines(text: string): (r: seq<string>)
    ensures forall k :: 0 <= k < |r| ==> '\n' !in r[k]
    decreases |text|
  {
    if text == [] then []
    else
      var i := LineEnd(text);
      if i == |text| then [text] else [text[..i]] + SplitLines(text[i + 1..])
  }

  /** Lines without a `"\n"` of their own are read back as written. */
  lemma {:induction false} SplitFileText(lines: seq<string>)
    requires forall k :: 0 <= k < |lines| ==> '\n' !in lines[k]
    ensures SplitLines(FileText(lines)) == lines
    decreases |lines|
  {
    if lines != [] {
      var text := FileText(lines);
      var l := lines[0];
      assert text == l + "\n" + FileText(lines[1..]);
      assert text[|l|] == '\n';
      assert LineEnd(text) == |l| by {
        forall k | 0 <= k < |l|
          ensures text[k] != '\n'
        {
          assert text[k] == l[k];
        }
      }
      assert text[..|l|] == l;
      assert text[|l| + 1..] == FileText(lines[1..]);
      SplitFileText(lines[1..]);
    }
  }

  /** The fixed parts of the playlist hold no `"\n"`. */
  lemma ConstantsPlain()
    ensures forall k :: 0 <= k < |InfoPrefix| ==> InfoPrefix[k] != '\n'
    ensures forall k :: 0 <= k < |Header| ==> Header[k] != '\n'
  {
  }

  /** An `#EXTINF` line holds a `"\n"` only if the name does. */
  lemma InfoLinePlain(name: string)
    requires '\n' !in name
    ensures '\n' !in InfoLine(name) && '\n' !in Header
  {
    ConstantsPlain();
    var l := InfoLine(name);
    forall k | 0 <= k < |l|
      ensures l[k] != '\n'
    {
      if k < |InfoPrefix| {
        assert l[k] == InfoPrefix[k];
      } else {
        assert l[k] == name[k - |InfoPrefix|];
      }
    }
  }

  /** Entries whose names and links hold no `"\n"` give lines without one. */
  lemma {:induction false} EntryLinesPlain(streams: seq<Stream>)
    requires forall k :: 0 <= k < |streams| ==> '\n' !in streams[k].name && '\n' !in streams[k].link
    ensures forall k :: 0 <= k < |EntryLines(streams)| ==> '\n' !in EntryLines(streams)[k]
    decreases |streams|
  {
    if streams != [] {
      var n := |streams| - 1;
      var init := streams[..n];
      assert forall k :: 0 <= k < n ==> init[k] == streams[k];
      EntryLinesPlain(init);
      InfoLinePlain(streams[n].name);
      assert EntryLines(streams) == EntryLines(init) + [InfoLine(streams[n].name), streams[n].link];
    }
  }

  /** A written playlist whose names and links hold no `"\n"` reads back,
      from the file's text, as exactly the streams written. */
  lemma FileRoundTrip(streams: seq<Stream>)
    requires streams != []
    requires forall k :: 0 <= k < |streams| ==> '\n' !in streams[k].name && '\n' !in streams[k].link
    ensures Parse(SplitLines(FileText(Render(streams).value))) == Some(streams)
  {
    var lines := Render(streams).value;
    assert lines == [Header] + EntryLines(streams);
    EntryLinesPlain(streams);
    InfoLinePlain(streams[0].name);
    assert forall k :: 0 <= k < |lines| ==> '\n' !in lines[k] by {
      forall k | 0 <= k < |lines|
        ensures '\n' !in lines[k]
      {
        if k > 0 {
          assert lines[k] == EntryLines(streams)[k - 1];
        }
      }
    }
    SplitFileText(lines);
    RenderRoundTrip(streams);
  }

  /** Whatever the file holds, no stream read back from it has a `"\n"`
      in its name. */
  lemma ReadNamesHaveNoNewline(text: string)
    ensures Parse(SplitLines(text)).Some? ==>
              forall k :: 0 <= k < |Parse(SplitLines(text)).value| ==> '\n' !in Parse(SplitLines(text)).value[k].name
  {
    var read := SplitLines(text);
    ParsePositions(read);
    match Parse(read)
    case None =>
    case Some(ss) =>
      forall k | 0 <= k < |ss|
        ensures '\n' !in ss[k].name
      {
        assert read[1 + 2 * k] == InfoPrefix + ss[k].name;
        assert '\n' !in read[1 + 2 * k];
      }
  }

  /** A name holding a `"\n"` does not survive the trip through the file:
      the reader splits its `#EXTINF` line in two. */
  lemma NewlineInNameIsLost(streams: seq<Stream>, k: nat)
    requires k < |streams| && '\n' in streams[k].name
    ensures Parse(SplitLines(FileText(Render(streams).value))) != Some(streams)
  {
    ReadNamesHaveNoNewline(FileText(Render(streams).value));
  }
}
