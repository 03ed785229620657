/** Visiting each channel in turn and gathering the links found
    (convert.py:134-180). */
module Aggregate {
  import opened Wrappers
  import opened Text
  import opened Channels
  import opened Sniffing
  import opened Seqs

  /** What visiting one channel produced. `sniffed` is the request log
      captured after the page load (the log is cleared before each visit,
      convert.py:138), or `None` when the visit raised before the scan.
      `sessionAlive` is false when the browser could not even return to the
      top-level document in the error handler (convert.py:179): that
      exception leaves the loop for the global handler (convert.py:181). */
  datatype Visit = Visit(sniffed: Option<seq<Record>>, sessionAlive: bool)

  /** One playlist entry. */
  datatype Stream = Stream(name: string, link: string)

  /** The entry one visit yields, if any (convert.py:156-171): the
      channel's name with the link the selection rule picks from the log. */
  function Resolve(ch: Channel, v: Visit): (r: Option<Stream>)
    ensures r.None? <==> v.sniffed.None? || forall k :: 0 <= k < |v.sniffed.value| ==> !Qualifies(v.sniffed.value[k])
    ensures r.Some? ==> && r.value.name == ch.name
                        && Contains(r.value.link, ".m3u8") && Contains(r.value.link, "http")
                        && exists k :: 0 <= k < |v.sniffed.value| && v.sniffed.value[k].hasResponse
                                       && v.sniffed.value[k].url == r.value.link
    ensures r.Some? ==> Some(r.value.link) == ReferenceChoice(v.sniffed.value)
  {
    match v.sniffed
    case None => None
    case Some(log) =>
      SelectNoneIff(log);
      SelectStreamMatchesReference(log);
      match SelectStream(log)
      case None => None
      case Some(link) =>
        SelectSound(log);
        Some(Stream(ch.name, link))
  }

  /** The values present in `xs`, in order. */
  function Somes<T>(xs: seq<Option<T>>): (r: seq<T>)
    ensures |r| <= |xs|
    decreases |xs|
  {
    if xs == [] then []
    else
      var rest := Somes(xs[1..]);
      match xs[0]
      case None => rest
      case Some(x) => [x] + rest
  }

  /** The positions of the values present in `xs`, in order. */
  function Positions<T>(xs: seq<Option<T>>): (r: seq<nat>)
    ensures forall k :: 0 <= k < |r| ==> r[k] < |xs|
    decreases |xs|
  {
    if xs == [] then []
    else
      var rest := Positions(xs[1..]);
      var shifted := seq(|rest|, k requires 0 <= k < |rest| => rest[k] + 1);
      if xs[0].Some? then [0] + shifted else shifted
  }

  lemma {:induction false} PositionsShape<T>(xs: seq<Option<T>>)
    ensures |Positions(xs)| == |Somes(xs)|
    ensures forall k, m :: 0 <= k < m < |Positions(xs)| ==> Positions(xs)[k] < Positions(xs)[m]
    decreases |xs|
  {
    if xs != [] {
      PositionsShape(xs[1..]);
    }
  }

  lemma {:induction false} PositionsExact<T>(xs: seq<Option<T>>)
    ensures forall i :: 0 <= i < |xs| ==> (xs[i].Some? <==> i in Positions(xs))
    decreases |xs|
  {
    if xs != [] {
      var rest := xs[1..];
      PositionsExact(rest);
      var src := Positions(rest);
      var shifted := seq(|src|, k requires 0 <= k < |src| => src[k] + 1);
      assert Positions(xs) == if xs[0].Some? then [0] + shifted else shifted;
      forall i | 0 <= i < |xs|
        ensures xs[i].Some? <==> i in Positions(xs)
      {
        if i > 0 {
          assert xs[i] == rest[i - 1];
          if i in shifted {
            var k :| 0 <= k < |shifted| && shifted[k] == i;
            assert src[k] == i - 1;
          }
          if i - 1 in src {
            var k :| 0 <= k < |src| && src[k] == i - 1;
            assert shifted[k] == i;
          }
        } else {
          assert 0 !in shifted;
        }
      }
    }
  }

  lemma {:induction false} PositionsEntries<T>(xs: seq<Option<T>>)
    ensures |Positions(xs)| == |Somes(xs)|
    ensures forall k :: 0 <= k < |Positions(xs)| ==> xs[Positions(xs)[k]] == Some(Somes(xs)[k])
    decreases |xs|
  {
    PositionsShape(xs);
    if xs != [] {
      var rest := xs[1..];
      PositionsEntries(rest);
      var src := Positions(rest);
      var all := Somes(rest);
      var shifted := seq(|src|, k requires 0 <= k < |src| => src[k] + 1);
      var out := Positions(xs);
      var vals := Somes(xs);
      forall k | 0 <= k < |out|
        ensures xs[out[k]] == Some(vals[k])
      {
        match xs[0]
        case None =>
          assert out == shifted && vals == all;
          assert xs[out[k]] == rest[src[k]];
        case Some(e) =>
          assert out == [0] + shifted && vals == [e] + all;
          if k > 0 {
            assert out[k] == src[k - 1] + 1 && vals[k] == all[k - 1];
            assert xs[out[k]] == rest[src[k - 1]];
          }
      }
    }
  }

  /** What visiting each channel yields, in channel order. */
  function Outcomes(chs: seq<Channel>, visit: Channel -> Visit): seq<Option<Stream>>
  {
    MapSeq((ch: Channel) => Resolve(ch, visit(ch)), chs)
  }

  /** The entries of every channel, each visit run to completion. */
  function ResolveAll(chs: seq<Channel>, visit: Channel -> Visit): (r: seq<Stream>)
    ensures |r| <= |chs|
  {
    Somes(Outcomes(chs, visit))
  }

  /** The positions of the channels that yield an entry, in order. */
  function Sources(chs: seq<Channel>, visit: Channel -> Visit): (r: seq<nat>)
    ensures forall k :: 0 <= k < |r| ==> r[k] < |chs|
  {
    Positions(Outcomes(chs, visit))
  }

  /** A channel yields an entry. */
  predicate Yields(ch: Channel, visit: Channel -> Visit)
  {
    Resolve(ch, visit(ch)).Some?
  }

  /** Every entry comes from exactly one channel, the sources are strictly
      increasing (channel order, at most one entry per channel), and a
      channel is a source exactly when its visit yields an entry. */
  lemma ResolveAllBySource(chs: seq<Channel>, visit: Channel -> Visit)
    ensures |Sources(chs, visit)| == |ResolveAll(chs, visit)|
    ensures forall k, m :: 0 <= k < m < |Sources(chs, visit)| ==> Sources(chs, visit)[k] < Sources(chs, visit)[m]
    ensures forall k :: 0 <= k < |Sources(chs, visit)| ==>
              Resolve(chs[Sources(chs, visit)[k]], visit(chs[Sources(chs, visit)[k]])) == Some(ResolveAll(chs, visit)[k])
    ensures forall i :: 0 <= i < |chs| ==> (Yields(chs[i], visit) <==> i in Sources(chs, visit))
  {
    var xs := Outcomes(chs, visit);
    assert forall i :: 0 <= i < |chs| ==> xs[i] == Resolve(chs[i], visit(chs[i]));
    PositionsShape(xs);
    PositionsExact(xs);
    PositionsEntries(xs);
  }

  /** Peeling off the first channel: its entry, if any, comes first. */
  lemma ResolveAllFirst(chs: seq<Channel>, visit: Channel -> Visit)
    requires chs != []
    ensures ResolveAll(chs, visit)
            == (match Resolve(chs[0], visit(chs[0]))
                case None => []
                case Some(s) => [s]) + ResolveAll(chs[1..], visit)
  {
    var xs := Outcomes(chs, visit);
    assert xs[0] == Resolve(chs[0], visit(chs[0]));
    assert xs[1..] == Outcomes(chs[1..], visit);
  }

  /** The number of channels the loop visits: all of them, unless a visit
      loses the session, which ends the loop after that channel. */
  function Reached(chs: seq<Channel>, visit: Channel -> Visit): (r: nat)
    ensures r <= |chs|
    ensures forall k :: 0 <= k < r - 1 ==> visit(chs[k]).sessionAlive
    ensures r < |chs| ==> 0 < r && !visit(chs[r - 1]).sessionAlive
    decreases |chs|
  {
    if chs == [] then 0
    else if !visit(chs[0]).sessionAlive then 1
    else
      var n := Reached(chs[1..], visit);
      assert forall k :: 0 <= k < |chs| - 1 ==> chs[1..][k] == chs[k + 1];
      1 + n
  }

  /** `valid_streams` at the end of the loop (convert.py:134-180). */
  function Collect(chs: seq<Channel>, visit: Channel -> Visit): (r: seq<Stream>)
    ensures |r| <= |chs|
    ensures forall k :: 0 <= k < |r| ==> Contains(r[k].link, ".m3u8") && Contains(r[k].link, "http")
    decreases |chs|
  {
    if chs == [] then []
    else
      var v := visit(chs[0]);
      var rest := if v.sessionAlive then Collect(chs[1..], visit) else [];
      match Resolve(chs[0], v)
      case None => rest
      case Some(s) => [s] + rest
  }

  /** The loop's result is the entries of exactly the channels it reached,
      in channel order. */
  lemma {:induction false} CollectIsResolveAllReached(chs: seq<Channel>, visit: Channel -> Visit)
    ensures Collect(chs, visit) == ResolveAll(chs[..Reached(chs, visit)], visit)
    decreases |chs|
  {
    if chs != [] {
      var n := Reached(chs, visit);
      var pre := chs[..n];
      assert pre[0] == chs[0];
      ResolveAllFirst(pre, visit);
      if !visit(chs[0]).sessionAlive {
        assert pre[1..] == [];
      } else {
        CollectIsResolveAllReached(chs[1..], visit);
        assert pre[1..] == chs[1..][..Reached(chs[1..], visit)];
      }
    }
  }

  /** When no visit loses the session, every channel is visited. */
  lemma CollectWhenSessionSurvives(chs: seq<Channel>, visit: Channel -> Visit)
    requires forall k :: 0 <= k < |chs| ==> visit(chs[k]).sessionAlive
    ensures Collect(chs, visit) == ResolveAll(chs, visit)
  {
    CollectIsResolveAllReached(chs, visit);
    assert chs[..Reached(chs, visit)] == chs;
  }
}
