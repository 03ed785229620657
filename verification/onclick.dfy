/** The target of a watch button: the first quoted substring of its
    `onclick` text, as found by the regular expression `['"](.*?)['"]`
    (convert.py:123). Without the DOTALL flag `.` matches every character
    except a newline, and the lazy `*?` stops at the first quote. */
module Onclick {
  import opened Wrappers

  predicate IsQuote(c: char)
  {
    c == '\'' || c == '"'
  }

  /** The regular expression matches `s` from the quote at `i` to the
      quote at `j`: nothing in between is a quote or a newline. */
  ghost predicate Closes(s: string, i: int, j: int)
  {
    && 0 <= i < j < |s|
    && IsQuote(s[i]) && IsQuote(s[j])
    && forall k :: i < k < j ==> !IsQuote(s[k]) && s[k] != '\n'
  }

  /** No match of the expression starts before `n`. */
  ghost predicate NoMatchBefore(s: string, n: int)
  {
    forall i, j :: i < n ==> !Closes(s, i, j)
  }

  /** One left-to-right pass over `s` from position `k`. `open` is the
      pending opening quote, if any: a quote not yet followed by a quote or
      a newline. A second quote closes it; a newline abandons it, since the
      expression cannot match across a line break from that start. */
  function Scan(s: string, k: nat, open: Option<nat>): (r: Option<(nat, nat)>)
    requires k <= |s|
    requires open.None? ==> NoMatchBefore(s, k)
    requires open.Some? ==> && open.value < k && IsQuote(s[open.value])
                            && NoMatchBefore(s, open.value)
                            && forall m :: open.value < m < k ==> !IsQuote(s[m]) && s[m] != '\n'
    ensures r.None? ==> NoMatchBefore(s, |s|)
    ensures r.Some? ==> Closes(s, r.value.0, r.value.1) && NoMatchBefore(s, r.value.0)
    decreases |s| - k
  {
    if k == |s| then
      None
    else if IsQuote(s[k]) then
      match open
      case Some(o) => Some((o, k))
      case None => Scan(s, k + 1, Some(k))
    else if s[k] == '\n' then
      Scan(s, k + 1, None)
    else
      Scan(s, k + 1, open)
  }

  /** `re.search(r"['\"](.*?)['\"]", s).group(1)`, or `None` when the
      expression does not match: `None` exactly when the expression matches
      nowhere, otherwise the group of the leftmost match. */
  function FirstQuoted(s: string): (r: Option<string>)
    ensures r.None? <==> forall i, j :: !Closes(s, i, j)
    ensures r.Some? ==>
              exists i, j :: && Closes(s, i, j) && r.value == s[i + 1..j]
                             && NoMatchBefore(s, i)
    ensures r.Some? ==> |r.value| < |s|
  {
    match Scan(s, 0, None)
    case None => None
    case Some((i, j)) =>
      assert Closes(s, i, j);
      Some(s[i + 1..j])
  }

  /** The extracted target contains no quote and no newline. */
  lemma FirstQuotedIsPlain(s: string)
    requires FirstQuoted(s).Some?
    ensures forall c :: c in FirstQuoted(s).value ==> !IsQuote(c) && c != '\n'
  {
    var i, j :| Closes(s, i, j) && FirstQuoted(s).value == s[i + 1..j];
    forall c | c in FirstQuoted(s).value
      ensures !IsQuote(c) && c != '\n'
    {
      var m :| 0 <= m < j - i - 1 && s[i + 1..j][m] == c;
      assert s[i + 1 + m] == c;
    }
  }

  /** The match at `i` to `j` is the one found when nothing matches
      earlier: a match is determined by its start. */
  lemma FirstQuotedAt(s: string, i: int, j: int)
    requires Closes(s, i, j) && NoMatchBefore(s, i)
    ensures FirstQuoted(s) == Some(s[i + 1..j])
  {
    var r := FirstQuoted(s);
    assert r.Some?;
    var i2, j2 :| Closes(s, i2, j2) && r.value == s[i2 + 1..j2] && NoMatchBefore(s, i2);
    assert i2 == i;
    assert j2 == j;
  }

  /** A quoted target preceded only by text with no quote is the one found. */
  lemma FirstQuotedFindsLeading(pre: string, q: char, t: string, q': char, post: string)
    requires forall c :: c in pre ==> !IsQuote(c)
    requires IsQuote(q) && IsQuote(q')
    requires forall c :: c in t ==> !IsQuote(c) && c != '\n'
    ensures FirstQuoted(pre + [q] + t + [q'] + post) == Some(t)
  {
    var s := pre + [q] + t + [q'] + post;
    var i, j := |pre|, |pre| + 1 + |t|;
    assert s[i] == q && s[j] == q';
    forall k | i < k < j
      ensures !IsQuote(s[k]) && s[k] != '\n'
    {
      assert s[k] == t[k - i - 1];
    }
    forall i', j' | i' < i
      ensures !Closes(s, i', j')
    {
      if 0 <= i' {
        assert s[i'] == pre[i'];
      }
    }
    FirstQuotedAt(s, i, j);
    assert s[i + 1..j] == t;
  }
}
