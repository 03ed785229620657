/** The few Python string operations the scraper relies on: the `in`
    substring test, `str.strip()` and `str.replace(old, "")`. */
module Text {

  /** Python's `str.isspace()` for one character (the characters `strip()`
      removes when called without arguments). */
  predicate IsWhitespace(c: char)
  {
    || c == ' '
    || ('\t' <= c <= '\r')
    || ('\U{1C}' <= c <= '\U{1F}')
    || c == '\U{85}' || c == '\U{A0}' || c == '\U{1680}'
    || ('\U{2000}' <= c <= '\U{200A}')
    || c == '\U{2028}' || c == '\U{2029}' || c == '\U{202F}'
    || c == '\U{205F}' || c == '\U{3000}'
  }

  predicate AllWhitespace(s: string)
  {
    forall k :: 0 <= k < |s| ==> IsWhitespace(s[k])
  }

  /** No whitespace at either end: what `strip()` guarantees. */
  predicate Trimmed(s: string)
  {
    s == [] || (!IsWhitespace(s[0]) && !IsWhitespace(s[|s| - 1]))
  }

  /** Python's `t in s`: `t` occurs as a contiguous run of `s`. */
  predicate Contains(s: string, t: string)
    decreases |s|
  {
    t <= s || (|s| > 0 && Contains(s[1..], t))
  }

  /** `Contains` agrees with the positional reading of `t in s`. */
  lemma {:induction false} ContainsAt(s: string, t: string)
    ensures Contains(s, t) <==> exists i :: 0 <= i <= |s| && t <= s[i..]
    decreases |s|
  {
    if t <= s {
      assert s[0..] == s;
    } else if |s| == 0 {
      assert forall i :: 0 <= i <= |s| ==> s[i..] == s;
    } else {
      ContainsAt(s[1..], t);
      if exists i :: 0 <= i <= |s| && t <= s[i..] {
        var i :| 0 <= i <= |s| && t <= s[i..];
        assert i != 0;
        assert s[1..][i - 1..] == s[i..];
      }
      if Contains(s[1..], t) {
        var i :| 0 <= i <= |s| - 1 && t <= s[1..][i..];
        assert s[1..][i..] == s[i + 1..];
      }
    }
  }

  /** Text in front of an occurrence keeps it an occurrence. */
  lemma {:induction false} ContainsAfter(x: string, s: string, t: string)
    requires Contains(s, t)
    ensures Contains(x + s, t)
    decreases |x|
  {
    if x != [] {
      assert (x + s)[1..] == x[1..] + s;
      ContainsAfter(x[1..], s, t);
    } else {
      assert x + s == s;
    }
  }

  /** Text behind an occurrence keeps it an occurrence. */
  lemma {:induction false} ContainsBefore(s: string, x: string, t: string)
    requires Contains(s, t)
    ensures Contains(s + x, t)
    decreases |s|
  {
    if t <= s {
      assert (s + x)[..|t|] == s[..|t|];
    } else {
      assert (s + x)[1..] == s[1..] + x;
      ContainsBefore(s[1..], x, t);
    }
  }

  /** Text around an occurrence keeps it an occurrence. */
  lemma ContainsAround(pre: string, mid: string, post: string, t: string)
    requires Contains(pre, t) || Contains(post, t)
    ensures Contains(pre + mid + post, t)
  {
    if Contains(pre, t) {
      ContainsBefore(pre, mid + post, t);
      assert pre + (mid + post) == pre + mid + post;
    } else {
      ContainsAfter(pre + mid, post, t);
    }
  }

  /** A string contains every one of its middle parts. */
  lemma ContainsMiddle(pre: string, mid: string, post: string)
    ensures Contains(pre + mid + post, mid)
  {
    assert mid <= mid + post;
    ContainsAfter(pre, mid + post, mid);
    assert pre + (mid + post) == pre + mid + post;
  }

  /** Removes leading whitespace; only whitespace is removed. */
  function StripLeft(s: string): (r: string)
    ensures |r| <= |s| && r == s[|s| - |r|..]
    ensures forall k :: 0 <= k < |s| - |r| ==> IsWhitespace(s[k])
    ensures r == [] || !IsWhitespace(r[0])
    decreases |s|
  {
    if |s| > 0 && IsWhitespace(s[0]) then
      var r := StripLeft(s[1..]);
      assert forall k :: 1 <= k < |s| ==> s[1..][k - 1] == s[k];
      r
    else s
  }

  /** Removes trailing whitespace; only whitespace is removed. */
  function StripRight(s: string): (r: string)
    ensures |r| <= |s| && r == s[..|r|]
    ensures forall k :: |r| <= k < |s| ==> IsWhitespace(s[k])
    ensures r == [] || !IsWhitespace(r[|r| - 1])
    decreases |s|
  {
    if |s| > 0 && IsWhitespace(s[|s| - 1]) then
      var r := StripRight(s[..|s| - 1]);
      assert forall k :: 0 <= k < |s| - 1 ==> s[..|s| - 1][k] == s[k];
      r
    else s
  }

  /** Python's `s.strip()`. */
  function Strip(s: string): (r: string)
    ensures Trimmed(r)
    ensures |r| <= |s|
  {
    StripRight(StripLeft(s))
  }

  /** If `l` is `s` after some leading whitespace and `r` is `l` before some
      trailing whitespace, then `s` is whitespace, `r`, whitespace. */
  lemma OuterWhitespace(s: string, l: string, r: string)
    requires |l| <= |s| && l == s[|s| - |l|..]
    requires forall k :: 0 <= k < |s| - |l| ==> IsWhitespace(s[k])
    requires |r| <= |l| && r == l[..|r|]
    requires forall k :: |r| <= k < |l| ==> IsWhitespace(l[k])
    ensures exists i, j :: && 0 <= i <= j <= |s| && r == s[i..j]
                           && AllWhitespace(s[..i]) && AllWhitespace(s[j..])
  {
    var i := |s| - |l|;
    var j := i + |r|;
    assert r == s[i..j];
    assert AllWhitespace(s[..i]) by {
      forall k | 0 <= k < i ensures IsWhitespace(s[..i][k]) { assert s[..i][k] == s[k]; }
    }
    assert AllWhitespace(s[j..]) by {
      forall k | 0 <= k < |s| - j ensures IsWhitespace(s[j..][k]) { assert s[j..][k] == l[|r| + k]; }
    }
  }

  /** `strip()` removes only whitespace, and only at the ends: `s` is some
      whitespace, then the result, then some whitespace. */
  lemma StripRemovesOnlyOuterWhitespace(s: string)
    ensures exists i, j :: && 0 <= i <= j <= |s| && Strip(s) == s[i..j]
                           && AllWhitespace(s[..i]) && AllWhitespace(s[j..])
  {
    OuterWhitespace(s, StripLeft(s), StripRight(StripLeft(s)));
  }

  /** Stripping a string that is already trimmed leaves it unchanged. */
  lemma StripTrimmed(s: string)
    requires Trimmed(s)
    ensures Strip(s) == s
  {
  }

  /** Leading whitespace makes no difference to `StripLeft`. */
  lemma {:induction false} StripLeftSkipsWhitespace(w: string, s: string)
    requires AllWhitespace(w)
    ensures StripLeft(w + s) == StripLeft(s)
    decreases |w|
  {
    if w != [] {
      var ws := w + s;
      assert ws[0] == w[0] && IsWhitespace(ws[0]);
      assert ws[1..] == w[1..] + s;
      assert StripLeft(ws) == StripLeft(ws[1..]);
      StripLeftSkipsWhitespace(w[1..], s);
    } else {
      assert w + s == s;
    }
  }

  /** Leading whitespace makes no difference to `Strip`. */
  lemma StripSkipsLeadingWhitespace(w: string, s: string)
    requires AllWhitespace(w)
    ensures Strip(w + s) == Strip(s)
  {
    StripLeftSkipsWhitespace(w, s);
  }

  /** Python's `s.replace(t, "")`: every non-overlapping occurrence of `t`,
      found left to right, is deleted. */
  function RemoveAll(s: string, t: string): (r: string)
    requires |t| > 0
    ensures |r| <= |s|
    decreases |s|
  {
    if |s| < |t| then s
    else if s[..|t|] == t then
      RemoveAll(s[|t|..], t)
    else
      assert s == [s[0]] + s[1..];
      [s[0]] + RemoveAll(s[1..], t)
  }

  /** Text without an occurrence of `t` is left as it is. */
  lemma {:induction false} RemoveAllAbsent(s: string, t: string)
    requires |t| > 0 && !Contains(s, t)
    ensures RemoveAll(s, t) == s
    decreases |s|
  {
    if |s| >= |t| {
      assert s[..|t|] != t;
      RemoveAllAbsent(s[1..], t);
      assert s == [s[0]] + s[1..];
    }
  }

  /** Removal only deletes: every character of the result comes from `s`. */
  lemma {:induction false} RemoveAllOnlyDeletes(s: string, t: string)
    requires |t| > 0
    ensures multiset(RemoveAll(s, t)) <= multiset(s)
    decreases |s|
  {
    if |s| < |t| {
    } else if s[..|t|] == t {
      assert s == s[..|t|] + s[|t|..];
      RemoveAllOnlyDeletes(s[|t|..], t);
    } else {
      assert s == [s[0]] + s[1..];
      RemoveAllOnlyDeletes(s[1..], t);
    }
  }

  /** Where `t` does not start at the front, the first character is kept. */
  lemma RemoveAllKeepsFront(s: string, t: string)
    requires |t| > 0 && |s| > 0 && !(t <= s)
    ensures RemoveAll(s, t) == [s[0]] + RemoveAll(s[1..], t)
  {
  }

  /** A character that cannot start `t` is kept. */
  lemma RemoveAllSkipsChar(c: char, s: string, t: string)
    requires |t| > 0 && c != t[0]
    ensures RemoveAll([c] + s, t) == [c] + RemoveAll(s, t)
  {
    var u := [c] + s;
    assert u[0] == c && u[1..] == s;
    RemoveAllKeepsFront(u, t);
  }

  /** No occurrence starts at the front of `a + t + b` when none starts
      inside `a`. */
  lemma NotAtFront(a: string, t: string, b: string)
    requires |a| > 0 && |t| > 0 && !(t <= a + t[..|t| - 1])
    ensures !(t <= a + t + b)
  {
    var p := a + t[..|t| - 1];
    var s := a + t + b;
    forall k | 0 <= k < |t|
      ensures p[k] == s[k]
    {
      if |a| <= k {
        assert p[k] == t[k - |a|] == s[k];
      }
    }
    assert p[..|t|] == s[..|t|];
  }

  /** Text without `t` has no `t` at its front, nor after its first
      character. */
  lemma AbsentFromRest(p: string, t: string)
    requires |p| > 0 && !Contains(p, t)
    ensures !(t <= p) && !Contains(p[1..], t)
  {
  }

  /** An occurrence at the front is deleted. */
  lemma RemoveAllAtFront(t: string, b: string)
    requires |t| > 0
    ensures RemoveAll(t + b, t) == RemoveAll(b, t)
  {
    var s := t + b;
    assert s[..|t|] == t && s[|t|..] == b;
  }

  /** The step of `RemoveAllDeletesFirst`: the first character of `a` is
      kept in front of what removal makes of the rest. */
  lemma DeletesFirstStep(a: string, t: string, b: string)
    requires |a| > 0 && |t| > 0 && !Contains(a + t[..|t| - 1], t)
    requires RemoveAll(a[1..] + t + b, t) == a[1..] + RemoveAll(b, t)
    ensures RemoveAll(a + t + b, t) == a + RemoveAll(b, t)
  {
    calc {
      RemoveAll(a + t + b, t);
      { AbsentFromRest(a + t[..|t| - 1], t); NotAtFront(a, t, b); RemoveAllKeepsFront(a + t + b, t); }
      [(a + t + b)[0]] + RemoveAll((a + t + b)[1..], t);
      { assert (a + t + b)[1..] == a[1..] + t + b; }
      [a[0]] + RemoveAll(a[1..] + t + b, t);
      [a[0]] + (a[1..] + RemoveAll(b, t));
      { assert a == [a[0]] + a[1..]; }
      a + RemoveAll(b, t);
    }
  }

  /** The first occurrence of `t` is deleted and the text in front of it is
      kept: `a + t[..|t| - 1]` holding no `t` says that no occurrence
      starts inside `a`. */
  lemma {:induction false} RemoveAllDeletesFirst(a: string, t: string, b: string)
    requires |t| > 0 && !Contains(a + t[..|t| - 1], t)
    ensures RemoveAll(a + t + b, t) == a + RemoveAll(b, t)
    decreases |a|
  {
    if a == [] {
      assert a + t + b == t + b;
      RemoveAllAtFront(t, b);
    } else {
      AbsentFromRest(a + t[..|t| - 1], t);
      assert (a + t[..|t| - 1])[1..] == a[1..] + t[..|t| - 1];
      RemoveAllDeletesFirst(a[1..], t, b);
      DeletesFirstStep(a, t, b);
    }
  }

  /** The step of `RemoveAllKeepsLeadingWhitespace`. */
  lemma KeepsWhitespaceStep(w: string, s: string, t: string)
    requires |t| > 0 && !IsWhitespace(t[0])
    requires |w| > 0 && IsWhitespace(w[0])
    requires RemoveAll(w[1..] + s, t) == w[1..] + RemoveAll(s, t)
    ensures RemoveAll(w + s, t) == w + RemoveAll(s, t)
  {
    calc {
      RemoveAll(w + s, t);
      { assert w + s == [w[0]] + (w[1..] + s); }
      RemoveAll([w[0]] + (w[1..] + s), t);
      { RemoveAllSkipsChar(w[0], w[1..] + s, t); }
      [w[0]] + (w[1..] + RemoveAll(s, t));
      { assert w == [w[0]] + w[1..]; }
      w + RemoveAll(s, t);
    }
  }

  /** Whitespace in front of the text is kept, provided `t` does not start
      with whitespace. */
  lemma {:induction false} RemoveAllKeepsLeadingWhitespace(w: string, s: string, t: string)
    requires |t| > 0 && !IsWhitespace(t[0])
    requires AllWhitespace(w)
    ensures RemoveAll(w + s, t) == w + RemoveAll(s, t)
    decreases |w|
  {
    if w == [] {
      assert w + s == s;
    } else {
      assert AllWhitespace(w[1..]) by {
        assert forall k :: 0 <= k < |w| - 1 ==> w[1..][k] == w[k + 1];
      }
      RemoveAllKeepsLeadingWhitespace(w[1..], s, t);
      KeepsWhitespaceStep(w, s, t);
    }
  }

  /** A token, whitespace and a trimmed text form a trimmed text, provided
      the token does not start with whitespace. */
  lemma StripLabelledText(t: string, gap: string, name: string)
    requires |t| > 0 && !IsWhitespace(t[0])
    requires name != [] && Trimmed(name)
    ensures Strip(t + gap + name) == t + gap + name
  {
    var text := t + gap + name;
    assert text[0] == t[0];
    assert text[|text| - 1] == name[|name| - 1];
    StripTrimmed(text);
  }

  /** Removing a leading token that does not occur again leaves the rest. */
  lemma RemoveLeadingToken(t: string, gap: string, name: string)
    requires |t| > 0 && !IsWhitespace(t[0])
    requires AllWhitespace(gap) && !Contains(name, t)
    ensures RemoveAll(t + gap + name, t) == gap + name
  {
    var text := t + gap + name;
    assert text[..|t|] == t;
    assert text[|t|..] == gap + name;
    RemoveAllKeepsLeadingWhitespace(gap, name, t);
    RemoveAllAbsent(name, t);
  }
}
