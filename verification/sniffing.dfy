/** Choosing the stream link from the requests one channel page made
    (convert.py:156-167). */
module Sniffing {
  import opened Wrappers
  import opened Text

  /** One captured request: its URL and whether a response arrived. */
  datatype Record = Record(url: string, hasResponse: bool)

  /** A responded request whose URL contains both `.m3u8` and `http`
      (convert.py:160, 164). */
  predicate Qualifies(r: Record)
  {
    r.hasResponse && Contains(r.url, ".m3u8") && Contains(r.url, "http")
  }

  /** A URL naming a master or index playlist (convert.py:166). */
  predicate Preferred(url: string)
  {
    Contains(url, "master") || Contains(url, "index")
  }

  predicate Decisive(r: Record)
  {
    Qualifies(r) && Preferred(r.url)
  }

  /** The loop over the log with `found` the link kept so far: each
      qualifying URL replaces `found`, and a preferred one ends the loop. */
  function SelectFrom(log: seq<Record>, found: Option<string>): (r: Option<string>)
    decreases |log|
  {
    if log == [] then found
    else if Qualifies(log[0]) then
      if Preferred(log[0].url) then Some(log[0].url)
      else SelectFrom(log[1..], Some(log[0].url))
    else SelectFrom(log[1..], found)
  }

  /** `found_link` after the scan, starting from `None`. */
  function SelectStream(log: seq<Record>): (r: Option<string>)
  {
    SelectFrom(log, None)
  }

  /** Position of the first qualifying preferred record, if any. */
  function FirstDecisive(log: seq<Record>): (r: Option<nat>)
    ensures r.Some? ==> r.value < |log| && Decisive(log[r.value])
                        && forall k :: 0 <= k < r.value ==> !Decisive(log[k])
    ensures r.None? ==> forall k :: 0 <= k < |log| ==> !Decisive(log[k])
    decreases |log|
  {
    if log == [] then None
    else if Decisive(log[0]) then Some(0)
    else match FirstDecisive(log[1..])
      case None => None
      case Some(i) => Some(i + 1)
  }

  /** Position of the last qualifying record, if any. */
  function LastQualifying(log: seq<Record>): (r: Option<nat>)
    ensures r.Some? ==> r.value < |log| && Qualifies(log[r.value])
                        && forall k :: r.value < k < |log| ==> !Qualifies(log[k])
    ensures r.None? ==> forall k :: 0 <= k < |log| ==> !Qualifies(log[k])
    decreases |log|
  {
    if log == [] then None
    else if Qualifies(log[|log| - 1]) then Some(|log| - 1)
    else LastQualifying(log[..|log| - 1])
  }

  /** The selection rule stated without the loop: the first preferred
      qualifying URL, else the last qualifying URL, else nothing. */
  function ReferenceChoice(log: seq<Record>): Option<string>
  {
    match FirstDecisive(log)
    case Some(i) => Some(log[i].url)
    case None =>
      match LastQualifying(log)
      case Some(j) => Some(log[j].url)
      case None => None
  }

  lemma {:induction false} LastQualifyingTail(log: seq<Record>)
    requires log != []
    ensures LastQualifying(log[1..]).Some? ==> LastQualifying(log) == Some(LastQualifying(log[1..]).value + 1)
    ensures LastQualifying(log[1..]).None? && Qualifies(log[0]) ==> LastQualifying(log) == Some(0)
    ensures LastQualifying(log[1..]).None? && !Qualifies(log[0]) ==> LastQualifying(log).None?
  {
    var rest := log[1..];
    assert forall k :: 0 <= k < |rest| ==> rest[k] == log[k + 1];
    if LastQualifying(rest).Some? {
      assert Qualifies(log[LastQualifying(rest).value + 1]);
    }
  }

  /** The scan, from any starting `found`, agrees with the reference rule,
      falling back to `found` when no record qualifies. */
  lemma {:induction false} SelectFromMatchesReference(log: seq<Record>, found: Option<string>)
    ensures SelectFrom(log, found) == (if ReferenceChoice(log).Some? then ReferenceChoice(log) else found)
    decreases |log|
  {
    if log != [] {
      var rest := log[1..];
      assert forall k :: 0 <= k < |rest| ==> rest[k] == log[k + 1];
      SelectFromMatchesReference(rest, if Qualifies(log[0]) then Some(log[0].url) else found);
      LastQualifyingTail(log);
      if !Decisive(log[0]) {
        match FirstDecisive(rest)
        case Some(i) =>
          assert FirstDecisive(log) == Some(i + 1);
        case None =>
          assert FirstDecisive(log).None?;
      }
    }
  }

  lemma SelectStreamMatchesReference(log: seq<Record>)
    ensures SelectStream(log) == ReferenceChoice(log)
  {
    SelectFromMatchesReference(log, None);
  }

  /** No link is found exactly when no record qualifies (convert.py:159-165). */
  lemma SelectNoneIff(log: seq<Record>)
    ensures SelectStream(log).None? <==> forall k :: 0 <= k < |log| ==> !Qualifies(log[k])
  {
    SelectStreamMatchesReference(log);
    if FirstDecisive(log).Some? {
      assert Qualifies(log[FirstDecisive(log).value]);
    }
  }

  /** A link found is the URL of a responded record containing `.m3u8`
      and `http` (convert.py:160-165). */
  lemma SelectSound(log: seq<Record>)
    requires SelectStream(log).Some?
    ensures exists k :: 0 <= k < |log| && Qualifies(log[k]) && log[k].url == SelectStream(log).value
    ensures Contains(SelectStream(log).value, ".m3u8") && Contains(SelectStream(log).value, "http")
  {
    SelectStreamMatchesReference(log);
    match FirstDecisive(log)
    case Some(i) =>
    case None =>
  }

  /** The first preferred qualifying URL wins (convert.py:165-167). */
  lemma SelectPrefersFirstDecisive(log: seq<Record>, i: nat)
    requires i < |log| && Decisive(log[i])
    requires forall k :: 0 <= k < i ==> !Decisive(log[k])
    ensures SelectStream(log) == Some(log[i].url)
  {
    SelectStreamMatchesReference(log);
    var f := FirstDecisive(log);
    assert f.Some?;
    assert f.value == i;
  }

  /** Without a preferred URL the last qualifying URL wins, not the first
      (convert.py:164-165). */
  lemma SelectTakesLastOtherwise(log: seq<Record>, j: nat)
    requires forall k :: 0 <= k < |log| ==> !Decisive(log[k])
    requires j < |log| && Qualifies(log[j])
    requires forall k :: j < k < |log| ==> !Qualifies(log[k])
    ensures SelectStream(log) == Some(log[j].url)
  {
    SelectStreamMatchesReference(log);
    var l := LastQualifying(log);
    assert l.Some?;
    assert l.value == j;
  }

  /** Records after the first preferred qualifying one are never examined:
      appending more records cannot change the choice (convert.py:167). */
  lemma {:induction false} SelectStopsAtDecisive(log: seq<Record>, later: seq<Record>, found: Option<string>)
    requires exists k :: 0 <= k < |log| && Decisive(log[k])
    ensures SelectFrom(log + later, found) == SelectFrom(log, found)
    decreases |log|
  {
    assert log != [];
    assert (log + later)[0] == log[0];
    if !Decisive(log[0]) {
      var k :| 0 <= k < |log| && Decisive(log[k]);
      assert k != 0 && log[1..][k - 1] == log[k];
      assert (log + later)[1..] == log[1..] + later;
      SelectStopsAtDecisive(log[1..], later, if Qualifies(log[0]) then Some(log[0].url) else found);
    }
  }

  /** A segment, then the master playlist, then another segment: the
      master playlist is chosen, whatever the last record says. */
  lemma MasterBetweenSegments(pre: string, post: string)
    requires Contains(post, ".m3u8") && Contains(pre, "http")
    requires !Preferred(pre + "seg001" + post)
    ensures SelectStream([Record(pre + "seg001" + post, true),
                          Record(pre + "master" + post, true),
                          Record(pre + "seg002" + post, true)])
            == Some(pre + "master" + post)
  {
    var log := [Record(pre + "seg001" + post, true),
                Record(pre + "master" + post, true),
                Record(pre + "seg002" + post, true)];
    ContainsAround(pre, "seg001", post, ".m3u8");
    ContainsAround(pre, "seg001", post, "http");
    ContainsAround(pre, "master", post, ".m3u8");
    ContainsAround(pre, "master", post, "http");
    ContainsMiddle(pre, "master", post);
    assert Qualifies(log[0]) && !Decisive(log[0]);
    assert Decisive(log[1]);
    SelectPrefersFirstDecisive(log, 1);
  }
}
