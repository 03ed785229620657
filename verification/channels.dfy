/** Building the channel list from the watch buttons (convert.py:113-129). */
module Channels {
  import opened Wrappers
  import opened Text
  import opened Onclick
  import opened Seqs

  /** What the browser reports about one watch button. Each field is `None`
      when reading it raised (a stale element, a card without an `h3`) or,
      for `onclick`, when the attribute is absent: `re.search` then raises
      on `None`. Every one of these ends in the bare `except: continue`. */
  datatype Button = Button(displayed: Option<bool>, onclick: Option<string>, heading: Option<string>)

  /** A channel page; its identity is the exact (case-sensitive) URL. */
  datatype Channel = Channel(name: string, url: string)

  /** The listing label removed from card headings. */
  const ListingPrefix: string := "24/7:"

  /** `text.strip().replace("24/7:", "").strip()` (convert.py:121). */
  function CleanName(text: string): (r: string)
    ensures Trimmed(r)
    ensures |r| <= |text|
  {
    Strip(RemoveAll(Strip(text), ListingPrefix))
  }

  /** A heading written as the listing label, some spaces and a name is
      cleaned to exactly that name. */
  lemma CleanNameDropsLabel(gap: string, name: string)
    requires AllWhitespace(gap)
    requires name != [] && Trimmed(name) && !Contains(name, ListingPrefix)
    ensures CleanName(ListingPrefix + gap + name) == name
  {
    StripLabelledText(ListingPrefix, gap, name);
    RemoveLeadingToken(ListingPrefix, gap, name);
    StripSkipsLeadingWhitespace(gap, name);
    StripTrimmed(name);
  }

  /** The button is passed over by the loop: hidden (convert.py:116-117),
      a lookup raised or `onclick` is absent (convert.py:128-129), the
      `onclick` text holds no quoted substring (convert.py:123-124), or
      `urljoin` raised on the target (convert.py:125, 128-129). */
  predicate Skipped(b: Button, resolve: string -> Option<string>)
  {
    || b.displayed != Some(true)
    || b.onclick.None?
    || b.heading.None?
    || FirstQuoted(b.onclick.value).None?
    || resolve(FirstQuoted(b.onclick.value).value).None?
  }

  /** The channel one button contributes, if any: a button the loop does
      not pass over offers its cleaned card name and the absolute URL that
      `resolve` (the source's `urljoin(BASE_URL, ·)`, `None` where it
      raises) makes of the quoted `onclick` target. */
  function Candidate(b: Button, resolve: string -> Option<string>): (r: Option<Channel>)
    ensures r.None? <==> Skipped(b, resolve)
    ensures r.Some? ==> && b.heading.Some?
                        && r.value.name == CleanName(b.heading.value) && Trimmed(r.value.name)
    ensures r.Some? ==> && b.onclick.Some? && FirstQuoted(b.onclick.value).Some?
                        && Some(r.value.url) == resolve(FirstQuoted(b.onclick.value).value)
  {
    if Skipped(b, resolve) then None
    else
      var name := CleanName(b.heading.value);
      var url := resolve(FirstQuoted(b.onclick.value).value).value;
      Some(Channel(name, url))
  }

  /** What the loop makes of each button, in order: the channel it
      offers, or `None` when the button is passed over. */
  function Offers(bs: seq<Button>, resolve: string -> Option<string>): seq<Option<Channel>>
  {
    MapSeq(b => Candidate(b, resolve), bs)
  }

  /** The Python expression `any(x['url'] == url for x in channels)`. */
  predicate HasUrl(cs: seq<Channel>, url: string)
  {
    exists k :: 0 <= k < |cs| && cs[k].url == url
  }

  predicate NoDuplicateUrls(cs: seq<Channel>)
  {
    forall k, m :: 0 <= k < m < |cs| ==> cs[k].url != cs[m].url
  }

  /** One append step of the loop (convert.py:126-127): the channel is
      appended exactly when its URL is not listed yet. */
  function AddChannel(cs: seq<Channel>, c: Channel): (r: seq<Channel>)
    ensures r == cs <==> HasUrl(cs, c.url)
    ensures r != cs ==> r == cs + [c]
    ensures HasUrl(r, c.url)
    ensures NoDuplicateUrls(cs) ==> NoDuplicateUrls(r)
  {
    if HasUrl(cs, c.url) then cs
    else
      assert (cs + [c])[|cs|] == c;
      cs + [c]
  }

  /** One iteration of the loop, given what the button offers: nothing
      changes for a passed-over button or a listed URL; otherwise the
      offered channel is appended. */
  function Include(cs: seq<Channel>, offer: Option<Channel>): (r: seq<Channel>)
    ensures offer.None? ==> r == cs
    ensures offer.Some? ==> HasUrl(r, offer.value.url) && (r == cs <==> HasUrl(cs, offer.value.url))
    ensures r == cs || (offer.Some? && r == cs + [offer.value])
    ensures NoDuplicateUrls(cs) ==> NoDuplicateUrls(r)
  {
    match offer
    case None => cs
    case Some(c) => AddChannel(cs, c)
  }

  /** The channel list after the loop has seen every offer of `os`. */
  function Fold(os: seq<Option<Channel>>): (r: seq<Channel>)
    ensures |r| <= |os|
    ensures NoDuplicateUrls(r)
    decreases |os|
  {
    if os == [] then []
    else Include(Fold(os[..|os| - 1]), os[|os| - 1])
  }

  /** `channels` at the end of the loop over `buttons` (convert.py:113-129). */
  function BuildChannels(bs: seq<Button>, resolve: string -> Option<string>): (r: seq<Channel>)
    ensures |r| <= |bs|
    ensures NoDuplicateUrls(r)
  {
    Fold(Offers(bs, resolve))
  }

  /** The channels offered, in order, before any deduplication. */
  function Present(os: seq<Option<Channel>>): (r: seq<Channel>)
    ensures |r| <= |os|
    decreases |os|
  {
    if os == [] then []
    else
      var prev := Present(os[..|os| - 1]);
      match os[|os| - 1]
      case None => prev
      case Some(c) => prev + [c]
  }

  /** Position of the first channel of `cs` with this URL, `|cs|` if none. */
  function FirstIndexOfUrl(cs: seq<Channel>, url: string): (r: nat)
    ensures r <= |cs|
    ensures r < |cs| ==> cs[r].url == url
    ensures forall k :: 0 <= k < r ==> cs[k].url != url
    decreases |cs|
  {
    if cs == [] then 0
    else if cs[0].url == url then 0
    else 1 + FirstIndexOfUrl(cs[1..], url)
  }

  /** `out` is `cands` with every repeated URL dropped: no URL twice, every
      offered URL present, each entry is the first candidate with its URL,
      and entries are in the order their URLs first appear. These four
      facts determine `out` from `cands`. */
  ghost predicate FirstOccurrences(out: seq<Channel>, cands: seq<Channel>)
  {
    && NoDuplicateUrls(out)
    && (forall i :: 0 <= i < |cands| ==> HasUrl(out, cands[i].url))
    && (forall k :: 0 <= k < |out| ==>
          FirstIndexOfUrl(cands, out[k].url) < |cands|
          && cands[FirstIndexOfUrl(cands, out[k].url)] == out[k])
    && (forall k, m :: 0 <= k < m < |out| ==>
          FirstIndexOfUrl(cands, out[k].url) < FirstIndexOfUrl(cands, out[m].url))
  }

  lemma {:induction false} FirstIndexOfUrlAppend(cs: seq<Channel>, c: Channel, url: string)
    ensures FirstIndexOfUrl(cs + [c], url)
            == if FirstIndexOfUrl(cs, url) < |cs| || c.url == url then FirstIndexOfUrl(cs, url)
               else |cs| + 1
    decreases |cs|
  {
    if cs != [] && cs[0].url != url {
      assert (cs + [c])[1..] == cs[1..] + [c];
      FirstIndexOfUrlAppend(cs[1..], c, url);
    }
  }

  /** In a list of first occurrences, a URL is present exactly when some
      candidate offers it. */
  lemma FirstOccurrencesHasUrl(out: seq<Channel>, cands: seq<Channel>, url: string)
    requires FirstOccurrences(out, cands)
    ensures HasUrl(out, url) <==> FirstIndexOfUrl(cands, url) < |cands|
  {
    if HasUrl(out, url) {
      var k :| 0 <= k < |out| && out[k].url == url;
    }
    if FirstIndexOfUrl(cands, url) < |cands| {
      assert HasUrl(out, cands[FirstIndexOfUrl(cands, url)].url);
    }
  }

  /** A candidate whose URL is already listed leaves the list as it is. */
  lemma KnownCandidateKeepsFirstOccurrences(out: seq<Channel>, cands: seq<Channel>, c: Channel)
    requires FirstOccurrences(out, cands)
    requires HasUrl(out, c.url)
    ensures FirstOccurrences(out, cands + [c])
  {
    var cands' := cands + [c];
    forall k | 0 <= k < |out|
      ensures FirstIndexOfUrl(cands', out[k].url) == FirstIndexOfUrl(cands, out[k].url)
    {
      FirstIndexOfUrlAppend(cands, c, out[k].url);
    }
    forall i | 0 <= i < |cands'|
      ensures HasUrl(out, cands'[i].url)
    {
      if i < |cands| {
        assert cands'[i] == cands[i];
      }
    }
  }

  /** With a new URL appended, every offered URL is still listed. */
  lemma NewCandidateCovers(out: seq<Channel>, cands: seq<Channel>, c: Channel)
    requires forall i :: 0 <= i < |cands| ==> HasUrl(out, cands[i].url)
    ensures forall i :: 0 <= i < |cands| + 1 ==> HasUrl(out + [c], (cands + [c])[i].url)
  {
    var out' := out + [c];
    forall i | 0 <= i < |cands| + 1
      ensures HasUrl(out', (cands + [c])[i].url)
    {
      if i < |cands| {
        var k :| 0 <= k < |out| && out[k].url == cands[i].url;
        assert out'[k] == out[k];
      } else {
        assert out'[|out|] == c;
      }
    }
  }

  /** Appending a candidate with a new URL moves no first index, and the
      new URL's first index is the appended position. */
  lemma NewCandidateIndices(out: seq<Channel>, cands: seq<Channel>, c: Channel)
    requires forall k :: 0 <= k < |out| ==> FirstIndexOfUrl(cands, out[k].url) < |cands|
    requires FirstIndexOfUrl(cands, c.url) == |cands|
    ensures forall k :: 0 <= k < |out| + 1 ==>
              FirstIndexOfUrl(cands + [c], (out + [c])[k].url)
              == if k < |out| then FirstIndexOfUrl(cands, out[k].url) else |cands|
  {
    forall k | 0 <= k < |out| + 1
      ensures FirstIndexOfUrl(cands + [c], (out + [c])[k].url)
              == if k < |out| then FirstIndexOfUrl(cands, out[k].url) else |cands|
    {
      FirstIndexOfUrlAppend(cands, c, (out + [c])[k].url);
      if k < |out| {
        assert (out + [c])[k] == out[k];
      }
    }
  }

  /** With a new URL appended, entries stay first occurrences, in order. */
  lemma NewCandidateEntries(out: seq<Channel>, cands: seq<Channel>, c: Channel)
    requires FirstOccurrences(out, cands)
    requires FirstIndexOfUrl(cands, c.url) == |cands|
    ensures forall k :: 0 <= k < |out| + 1 ==>
              FirstIndexOfUrl(cands + [c], (out + [c])[k].url) < |cands| + 1
              && (cands + [c])[FirstIndexOfUrl(cands + [c], (out + [c])[k].url)] == (out + [c])[k]
    ensures forall k, m :: 0 <= k < m < |out| + 1 ==>
              FirstIndexOfUrl(cands + [c], (out + [c])[k].url) < FirstIndexOfUrl(cands + [c], (out + [c])[m].url)
  {
    var cands' := cands + [c];
    var out' := out + [c];
    NewCandidateIndices(out, cands, c);
    forall k | 0 <= k < |out'|
      ensures FirstIndexOfUrl(cands', out'[k].url) < |cands'|
              && cands'[FirstIndexOfUrl(cands', out'[k].url)] == out'[k]
    {
      if k < |out| {
        assert out'[k] == out[k];
        assert cands'[FirstIndexOfUrl(cands, out[k].url)] == cands[FirstIndexOfUrl(cands, out[k].url)];
      } else {
        assert out'[k] == c && cands'[|cands|] == c;
      }
    }
  }

  /** A candidate with a new URL is appended at the end. */
  lemma NewCandidateKeepsFirstOccurrences(out: seq<Channel>, cands: seq<Channel>, c: Channel)
    requires FirstOccurrences(out, cands)
    requires !HasUrl(out, c.url)
    ensures FirstOccurrences(out + [c], cands + [c])
  {
    FirstOccurrencesHasUrl(out, cands, c.url);
    NewCandidateCovers(out, cands, c);
    NewCandidateEntries(out, cands, c);
    assert out + [c] == AddChannel(out, c);
  }

  /** The fold keeps exactly the first occurrence of every offered URL, in
      order of first appearance. */
  lemma {:induction false} FoldFirstSeen(os: seq<Option<Channel>>)
    ensures FirstOccurrences(Fold(os), Present(os))
    decreases |os|
  {
    if os != [] {
      var init := os[..|os| - 1];
      FoldFirstSeen(init);
      match os[|os| - 1]
      case None =>
      case Some(c) =>
        if HasUrl(Fold(init), c.url) {
          KnownCandidateKeepsFirstOccurrences(Fold(init), Present(init), c);
        } else {
          NewCandidateKeepsFirstOccurrences(Fold(init), Present(init), c);
        }
    }
  }

  /** The channel list is exactly the offered channels with repeated URLs
      dropped, the first visible occurrence of each URL winning and the
      order of first appearance kept (convert.py:126-127). */
  lemma BuildChannelsFirstSeen(bs: seq<Button>, resolve: string -> Option<string>)
    ensures FirstOccurrences(BuildChannels(bs, resolve), Present(Offers(bs, resolve)))
  {
    FoldFirstSeen(Offers(bs, resolve));
  }

  /** An offer of nothing can be dropped from anywhere in the sequence. */
  lemma {:induction false} FoldIgnoresNone(pre: seq<Option<Channel>>, post: seq<Option<Channel>>)
    ensures Fold(pre + [None] + post) == Fold(pre + post)
    decreases |post|
  {
    if post == [] {
      assert pre + [None] + post == pre + [None];
      assert (pre + [None])[..|pre|] == pre;
      assert pre + post == pre;
    } else {
      var last := post[|post| - 1];
      var init := post[..|post| - 1];
      FoldIgnoresNone(pre, init);
      var xs := pre + [None] + post;
      var ys := pre + post;
      assert xs[..|xs| - 1] == pre + [None] + init && xs[|xs| - 1] == last;
      assert ys[..|ys| - 1] == pre + init && ys[|ys| - 1] == last;
    }
  }

  /** A button that is hidden, raises on lookup, or has no quoted target
      adds nothing, wherever it stands; every other button's effect is
      unchanged (convert.py:116-117, 123-124, 128-129). */
  lemma SkippedButtonChangesNothing(pre: seq<Button>, b: Button, post: seq<Button>, resolve: string -> Option<string>)
    requires Skipped(b, resolve)
    ensures BuildChannels(pre + [b] + post, resolve) == BuildChannels(pre + post, resolve)
  {
    var f := (x: Button) => Candidate(x, resolve);
    assert MapSeq(f, [b]) == [None];
    MapSeqAppend(f, pre + [b], post);
    MapSeqAppend(f, pre, [b]);
    MapSeqAppend(f, pre, post);
    FoldIgnoresNone(Offers(pre, resolve), Offers(post, resolve));
  }

  /** A button whose URL is already listed adds nothing (convert.py:126). */
  lemma RepeatedUrlChangesNothing(bs: seq<Button>, b: Button, resolve: string -> Option<string>)
    requires Candidate(b, resolve).Some?
    requires HasUrl(BuildChannels(bs, resolve), Candidate(b, resolve).value.url)
    ensures BuildChannels(bs + [b], resolve) == BuildChannels(bs, resolve)
  {
    MapSeqAppend((x: Button) => Candidate(x, resolve), bs, [b]);
    var os := Offers(bs + [b], resolve);
    assert os[..|bs|] == Offers(bs, resolve);
  }
}
