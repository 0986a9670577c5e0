/** The handful of Python `str` operations the scraper relies on, written out
    over `seq<char>`: `isspace`/`\s`, `isdigit`, `strip`, `split()` with no
    argument, `re.sub(r'\s+', ' ', s)`, `lower`, `in`, `find` and `' '.join`. */
module Text {

  datatype Option<+T> = None | Some(value: T)

  /** Python's whitespace (`str.isspace`, `str.split()`, `str.strip()` and `\s`
      in a `str` pattern): the ASCII controls TAB..CR and FS..US, SPACE, NEL,
      NO-BREAK SPACE and the Unicode space separators. */
  predicate IsSpace(c: char) {
    || c == ' '
    || ('\t' <= c <= '\r')
    || ('\U{1C}' <= c <= '\U{1F}')
    || c == '\U{85}' || c == '\U{A0}' || c == '\U{1680}'
    || ('\U{2000}' <= c <= '\U{200A}')
    || c == '\U{2028}' || c == '\U{2029}' || c == '\U{202F}'
    || c == '\U{205F}' || c == '\U{3000}'
  }

  predicate IsDigit(c: char) {
    '0' <= c <= '9'
  }

  /** `s.isdigit()`: false on the empty string. */
  predicate AllDigits(s: string) {
    |s| > 0 && forall i :: 0 <= i < |s| ==> IsDigit(s[i])
  }

  predicate AllSpace(s: string) {
    forall i :: 0 <= i < |s| ==> IsSpace(s[i])
  }

  predicate NoSpace(s: string) {
    forall i :: 0 <= i < |s| ==> !IsSpace(s[i])
  }

  /** A word as `split()` produces it: non-empty, no whitespace inside. */
  predicate IsWord(s: string) {
    s != [] && NoSpace(s)
  }

  /** `s.lstrip()`: the longest suffix of `s` that does not start with whitespace. */
  function TrimStart(s: string): (r: string)
    ensures |r| <= |s|
    ensures r == [] || !IsSpace(r[0])
  {
    if s != [] && IsSpace(s[0]) then TrimStart(s[1..]) else s
  }

  /** `s.rstrip()`: the longest prefix of `s` that does not end with whitespace. */
  function TrimEnd(s: string): (r: string)
    ensures |r| <= |s| && (r != [] ==> r[0] == s[0])
    ensures r == [] || !IsSpace(r[|r| - 1])
  {
    if s != [] && IsSpace(s[|s| - 1]) then TrimEnd(s[..|s| - 1]) else s
  }

  /** `s.strip()` */
  function Strip(s: string): (r: string)
    ensures r == [] || (!IsSpace(r[0]) && !IsSpace(r[|r| - 1]))
  {
    TrimEnd(TrimStart(s))
  }

  /** `s.lstrip()` is a suffix of `s` after a run of whitespace. */
  lemma {:induction false} TrimStartSplit(s: string)
    ensures var k := |s| - |TrimStart(s)|; s[k..] == TrimStart(s) && AllSpace(s[..k])
    decreases |s|
  {
    if s != [] && IsSpace(s[0]) {
      var t := s[1..];
      TrimStartSplit(t);
      var k := |t| - |TrimStart(t)|;
      assert s[k + 1..] == t[k..];
      var lead := s[..k + 1];
      forall i | 0 <= i < |lead|
        ensures IsSpace(lead[i])
      {
        if i > 0 {
          assert lead[i] == t[..k][i - 1];
        }
      }
    }
  }

  /** `s.rstrip()` is a prefix of `s` before a run of whitespace. */
  lemma {:induction false} TrimEndSplit(s: string)
    ensures var k := |TrimEnd(s)|; s[..k] == TrimEnd(s) && AllSpace(s[k..])
    decreases |s|
  {
    if s != [] && IsSpace(s[|s| - 1]) {
      var p := s[..|s| - 1];
      TrimEndSplit(p);
      var k := |TrimEnd(p)|;
      assert s[..k] == p[..k];
      var tail := s[k..];
      forall i | 0 <= i < |tail|
        ensures IsSpace(tail[i])
      {
        if i < |tail| - 1 {
          assert tail[i] == p[k..][i];
        }
      }
    }
  }

  /** A string with visible ends is its own stripped form. */
  lemma StripTrimmed(s: string)
    requires s == [] || (!IsSpace(s[0]) && !IsSpace(s[|s| - 1]))
    ensures Strip(s) == s
  {
    StripPadded([], s, []);
    assert [] + s + [] == s;
  }

  /** `s` is its stripped form with whitespace around it. */
  lemma StripSplit(s: string)
    ensures exists pre, post :: AllSpace(pre) && AllSpace(post) && s == pre + Strip(s) + post
  {
    var pre, post := StripPadding(s);
  }

  /** The whitespace `strip()` removes from each end of `s`. */
  lemma StripPadding(s: string) returns (pre: string, post: string)
    ensures AllSpace(pre) && AllSpace(post) && s == pre + Strip(s) + post
  {
    var r := TrimStart(s);
    var m := TrimEnd(r);
    TrimStartSplit(s);
    TrimEndSplit(r);
    var k := |s| - |r|;
    SplitAround(s, k, r, |m|);
    pre, post := s[..k], r[|m|..];
  }

  /** A string cut at `k`, and its suffix `r` cut again at `j`. */
  lemma SplitAround(s: string, k: nat, r: string, j: nat)
    requires k <= |s| && s[k..] == r && j <= |r|
    ensures s == s[..k] + r[..j] + r[j..]
  {
    assert s == s[..k] + s[k..];
    assert r == r[..j] + r[j..];
  }

  lemma {:induction false} TrimStartPadded(pre: string, s: string)
    requires AllSpace(pre) && (s == [] || !IsSpace(s[0]))
    ensures TrimStart(pre + s) == s
    decreases |pre|
  {
    if pre == [] {
      assert pre + s == s;
    } else {
      assert (pre + s)[1..] == pre[1..] + s;
      TrimStartPadded(pre[1..], s);
    }
  }

  lemma {:induction false} TrimEndPadded(s: string, post: string)
    requires AllSpace(post) && (s == [] || !IsSpace(s[|s| - 1]))
    ensures TrimEnd(s + post) == s
    decreases |post|
  {
    if post == [] {
      assert s + post == s;
    } else {
      var p := post[..|post| - 1];
      assert (s + post)[..|s + post| - 1] == s + p;
      TrimEndPadded(s, p);
    }
  }

  /** Stripping removes exactly the surrounding whitespace and nothing else. */
  lemma StripPadded(pre: string, s: string, post: string)
    requires AllSpace(pre) && AllSpace(post)
    requires s == [] || (!IsSpace(s[0]) && !IsSpace(s[|s| - 1]))
    ensures Strip(pre + s + post) == s
  {
    assert pre + s + post == pre + (s + post);
    if s == [] {
      assert pre + s + post == pre + post;
      assert AllSpace(pre + post);
      TrimStartPadded(pre + post, []);
      assert pre + post + [] == pre + post;
    } else {
      TrimStartPadded(pre, s + post);
      TrimEndPadded(s, post);
    }
  }

  /** The first word of `s`: its longest prefix without whitespace. */
  function LeadingWord(s: string): (w: string)
    ensures |w| <= |s| && (forall i :: 0 <= i < |w| ==> w[i] == s[i]) && NoSpace(w)
    ensures |w| == |s| || IsSpace(s[|w|])
  {
    if s == [] || IsSpace(s[0]) then [] else [s[0]] + LeadingWord(s[1..])
  }

  /** `s.split()`: the maximal runs of non-whitespace characters, in order. */
  function Words(s: string): (ws: seq<string>)
    ensures forall k :: 0 <= k < |ws| ==> IsWord(ws[k])
    decreases |s|
  {
    if s == [] then []
    else if IsSpace(s[0]) then Words(s[1..])
    else
      var w := LeadingWord(s);
      [w] + Words(s[|w|..])
  }

  /** The non-whitespace characters of `s`, in order. */
  function Visible(s: string): string {
    if s == [] then [] else (if IsSpace(s[0]) then [] else [s[0]]) + Visible(s[1..])
  }

  function Concat(ws: seq<string>): string {
    if ws == [] then [] else ws[0] + Concat(ws[1..])
  }

  lemma {:induction false} VisibleAppend(a: string, b: string)
    ensures Visible(a + b) == Visible(a) + Visible(b)
    decreases |a|
  {
    if a == [] {
      assert a + b == b;
    } else {
      assert (a + b)[1..] == a[1..] + b;
      VisibleAppend(a[1..], b);
    }
  }

  lemma {:induction false} VisibleOfWord(w: string)
    requires NoSpace(w)
    ensures Visible(w) == w
    decreases |w|
  {
    if w != [] {
      VisibleOfWord(w[1..]);
    }
  }

  /** Splitting loses nothing but whitespace: the words, put back together,
      are exactly the visible characters of the input. */
  lemma {:induction false} WordsKeepVisible(s: string)
    ensures Concat(Words(s)) == Visible(s)
    decreases |s|
  {
    if s == [] {
    } else if IsSpace(s[0]) {
      WordsKeepVisible(s[1..]);
    } else {
      var w := LeadingWord(s);
      assert s == w + s[|w|..] by { assert s[..|w|] == w; }
      WordsKeepVisible(s[|w|..]);
      VisibleAppend(w, s[|w|..]);
      VisibleOfWord(w);
      assert Words(s) == [w] + Words(s[|w|..]);
      assert ([w] + Words(s[|w|..]))[1..] == Words(s[|w|..]);
    }
  }

  lemma {:induction false} LeadingWordOf(w: string, rest: string)
    requires NoSpace(w) && (rest == [] || IsSpace(rest[0]))
    ensures LeadingWord(w + rest) == w
    decreases |w|
  {
    if w != [] {
      assert (w + rest)[1..] == w[1..] + rest;
      LeadingWordOf(w[1..], rest);
    } else {
      assert w + rest == rest;
    }
  }

  /** A word followed by whitespace (or by nothing) is the first result of `split()`. */
  lemma WordsOfWordThen(w: string, rest: string)
    requires IsWord(w) && (rest == [] || IsSpace(rest[0]))
    ensures Words(w + rest) == [w] + Words(rest)
  {
    LeadingWordOf(w, rest);
    assert (w + rest)[|w|..] == rest;
  }

  /** `(a + " " + b).split() == [a, b]` for two words `a` and `b`. */
  lemma WordsOfPair(a: string, b: string)
    requires IsWord(a) && IsWord(b)
    ensures Words(a + " " + b) == [a, b]
  {
    assert a + " " + b == a + (" " + b);
    WordsOfWordThen(a, " " + b);
    assert (" " + b)[1..] == b;
    WordsOfWordThen(b, []);
    assert b + [] == b;
  }

  /** Whitespace on its own has no words. */
  lemma {:induction false} WordsOfSpace(s: string)
    requires AllSpace(s)
    ensures Words(s) == []
    decreases |s|
  {
    if s != [] {
      WordsOfSpace(s[1..]);
    }
  }

  /** `split()` distributes over a concatenation whose seam is whitespace:
      no word straddles it. */
  lemma {:induction false} WordsAppend(a: string, b: string)
    requires a == [] || b == [] || IsSpace(a[|a| - 1]) || IsSpace(b[0])
    ensures Words(a + b) == Words(a) + Words(b)
    decreases |a|, 1
  {
    if a == [] {
      assert a + b == b;
    } else if IsSpace(a[0]) {
      WordsAppendSpaceFirst(a, b);
    } else {
      WordsAppendWordFirst(a, b);
    }
  }

  lemma {:induction false} WordsAppendSpaceFirst(a: string, b: string)
    requires a != [] && IsSpace(a[0])
    requires b == [] || IsSpace(a[|a| - 1]) || IsSpace(b[0])
    ensures Words(a + b) == Words(a) + Words(b)
    decreases |a|, 0
  {
    WordsDropSpace(a, b);
    WordsAppend(a[1..], b);
  }

  lemma {:induction false} WordsAppendWordFirst(a: string, b: string)
    requires a != [] && !IsSpace(a[0])
    requires b == [] || IsSpace(a[|a| - 1]) || IsSpace(b[0])
    ensures Words(a + b) == Words(a) + Words(b)
    decreases |a|, 0
  {
    var w, rest := WordsSplitWord(a);
    WordHeadAppend(w, rest, b);
    if rest != [] {
      WordsAppend(rest, b);
    } else {
      assert rest + b == b && Words(rest) == [];
    }
    assert a + b == w + rest + b;
    AppendAssoc([w], Words(rest), Words(b));
  }

  /** A leading whitespace character contributes no word. */
  lemma WordsDropSpace(a: string, b: string)
    requires a != [] && IsSpace(a[0])
    ensures Words(a) == Words(a[1..]) && Words(a + b) == Words(a[1..] + b)
  {
    assert (a + b)[1..] == a[1..] + b;
  }

  /** A text starting with a visible character is its first word, then the
      rest, which is empty or starts with whitespace. */
  lemma WordsSplitWord(a: string) returns (w: string, rest: string)
    requires a != [] && !IsSpace(a[0])
    ensures IsWord(w) && a == w + rest && (rest == [] || IsSpace(rest[0]))
    ensures Words(a) == [w] + Words(rest)
    ensures |rest| < |a| && (rest != [] ==> rest[|rest| - 1] == a[|a| - 1])
  {
    w := LeadingWord(a);
    rest := a[|w|..];
    assert a == w + rest by { assert a[..|w|] == w; }
  }

  lemma WordHeadAppend(w: string, rest: string, b: string)
    requires IsWord(w) && (rest == [] || IsSpace(rest[0]))
    requires rest != [] || b == [] || IsSpace(b[0])
    ensures Words(w + rest + b) == [w] + Words(rest + b)
  {
    assert w + rest + b == w + (rest + b);
    WordsOfWordThen(w, rest + b);
  }

  /** `strip()` does not change the words of a text. */
  lemma WordsOfStrip(s: string)
    ensures Words(Strip(s)) == Words(s)
  {
    var pre, post := StripPadding(s);
    var t := Strip(s);
    assert s == pre + (t + post);
    WordsAppend(pre, t + post);
    WordsOfSpace(pre);
    WordsAppend(t, post);
    WordsOfSpace(post);
  }

  lemma AppendAssoc<T>(p: seq<T>, q: seq<T>, r: seq<T>)
    ensures (p + q) + r == p + (q + r)
  {
  }

  /** Only single spaces stand between visible characters: every whitespace
      character is a plain space and is followed by a visible one or by the end. */
  ghost predicate SingleSpaced(s: string) {
    && (forall i :: 0 <= i < |s| && IsSpace(s[i]) ==> s[i] == ' ')
    && (forall i, j :: 0 <= i < j < |s| && j == i + 1 ==> !(IsSpace(s[i]) && IsSpace(s[j])))
  }

  /** `re.sub(r'\s+', ' ', s)`: every maximal run of whitespace becomes one space. */
  function Collapse(s: string): (r: string)
    ensures |r| <= |s| && (r == [] <==> s == [])
    ensures s != [] ==> (IsSpace(s[0]) <==> r[0] == ' ') && (!IsSpace(s[0]) ==> r[0] == s[0])
    ensures s != [] && !IsSpace(s[|s| - 1]) ==> r[|r| - 1] == s[|s| - 1]
    decreases |s|
  {
    if s == [] then []
    else if IsSpace(s[0]) then
      var t := TrimStart(s);
      TrimStartSplit(s);
      [' '] + Collapse(t)
    else
      [s[0]] + Collapse(s[1..])
  }

  /** A character put in front of single-spaced text keeps it single-spaced
      unless it is whitespace other than a space, or whitespace before
      whitespace. */
  lemma SingleSpacedCons(c: char, w: string)
    requires SingleSpaced(w)
    requires IsSpace(c) ==> c == ' ' && (w == [] || !IsSpace(w[0]))
    ensures SingleSpaced([c] + w)
  {
    var s := [c] + w;
    forall i | 0 <= i < |s| && IsSpace(s[i])
      ensures s[i] == ' '
    {
      if i > 0 {
        assert s[i] == w[i - 1];
      }
    }
    forall i, j | 0 <= i < j < |s| && j == i + 1
      ensures !(IsSpace(s[i]) && IsSpace(s[j]))
    {
      if i > 0 {
        assert s[i] == w[i - 1] && s[j] == w[j - 1];
      }
    }
  }

  /** The tail of single-spaced text is single-spaced. */
  lemma SingleSpacedTail(s: string)
    requires s != [] && SingleSpaced(s)
    ensures SingleSpaced(s[1..])
  {
    var t := s[1..];
    forall i, j | 0 <= i < j < |t| && j == i + 1
      ensures !(IsSpace(t[i]) && IsSpace(t[j]))
    {
      assert t[i] == s[i + 1] && t[j] == s[j + 1];
    }
  }

  /** Collapsed text is single-spaced. */
  lemma {:induction false} CollapseSpacing(s: string)
    ensures SingleSpaced(Collapse(s))
    decreases |s|
  {
    if s != [] {
      if IsSpace(s[0]) {
        var t := TrimStart(s);
        CollapseSpacing(t);
        SingleSpacedCons(' ', Collapse(t));
      } else {
        CollapseSpacing(s[1..]);
        SingleSpacedCons(s[0], Collapse(s[1..]));
      }
    }
  }

  /** Collapsing keeps the visible characters and their order. */
  lemma {:induction false} CollapseKeepsVisible(s: string)
    ensures Visible(Collapse(s)) == Visible(s)
    decreases |s|
  {
    if s == [] {
    } else if IsSpace(s[0]) {
      var t := TrimStart(s);
      CollapseKeepsVisible(t);
      TrimStartSplit(s);
      var lead := s[..|s| - |t|];
      assert s == lead + t;
      VisibleAppend(lead, t);
      AllSpaceInvisible(lead);
      assert Visible([' '] + Collapse(t)) == Visible(Collapse(t));
    } else {
      CollapseKeepsVisible(s[1..]);
    }
  }

  lemma {:induction false} AllSpaceInvisible(s: string)
    requires AllSpace(s)
    ensures Visible(s) == []
    decreases |s|
  {
    if s != [] {
      AllSpaceInvisible(s[1..]);
    }
  }

  /** Text that is already single-spaced is left as it is. */
  lemma {:induction false} CollapseSingleSpaced(s: string)
    requires SingleSpaced(s)
    ensures Collapse(s) == s
    decreases |s|
  {
    if s != [] {
      var t := s[1..];
      SingleSpacedTail(s);
      CollapseSingleSpaced(t);
      if IsSpace(s[0]) {
        assert t == [] || !IsSpace(t[0]) by {
          if t != [] {
            assert s[1] == t[0];
          }
        }
        assert TrimStart(t) == t;
      }
      assert s == [s[0]] + t;
    }
  }

  /** Whitespace collapsing is idempotent. */
  lemma CollapseIdempotent(s: string)
    ensures Collapse(Collapse(s)) == Collapse(s)
  {
    CollapseSpacing(s);
    CollapseSingleSpaced(Collapse(s));
  }

  /** A word at the front passes through collapsing unchanged. */
  lemma {:induction false} CollapseWord(w: string, r: string)
    requires NoSpace(w)
    ensures Collapse(w + r) == w + Collapse(r)
    decreases |w|
  {
    if w == [] {
      assert w + r == r;
    } else {
      var x := w + r;
      assert x[0] == w[0] && x[1..] == w[1..] + r;
      assert Collapse(x) == [w[0]] + Collapse(w[1..] + r);
      CollapseWord(w[1..], r);
      AppendAssoc([w[0]], w[1..], Collapse(r));
      assert [w[0]] + w[1..] == w;
    }
  }

  /** Collapsing whitespace runs keeps the words: every run between two
      words becomes a separator again, not nothing. */
  lemma {:induction false} WordsOfCollapse(t: string)
    ensures Words(Collapse(t)) == Words(t)
    decreases |t|, 1
  {
    if t != [] && IsSpace(t[0]) {
      WordsOfCollapseSpaceFirst(t);
    } else if t != [] {
      WordsOfCollapseWordFirst(t);
    }
  }

  lemma {:induction false} WordsOfCollapseSpaceFirst(t: string)
    requires t != [] && IsSpace(t[0])
    ensures Words(Collapse(t)) == Words(t)
    decreases |t|, 0
  {
    var u := TrimStart(t);
    assert u == TrimStart(t[1..]);
    WordsOfCollapse(u);
    WordsOfTrimStart(t);
    assert Collapse(t) == [' '] + Collapse(u);
    WordsAfterSpace(Collapse(u));
  }

  /** Leading whitespace carries no word. */
  lemma WordsOfTrimStart(t: string)
    ensures Words(TrimStart(t)) == Words(t)
  {
    var u := TrimStart(t);
    TrimStartSplit(t);
    var lead := t[..|t| - |u|];
    assert t == lead + u;
    WordsAppend(lead, u);
    WordsOfSpace(lead);
  }

  /** A separator in front of a text adds no word. */
  lemma WordsAfterSpace(x: string)
    ensures Words([' '] + x) == Words(x)
  {
    WordsAppend([' '], x);
    WordsOfSpace([' ']);
  }

  lemma {:induction false} WordsOfCollapseWordFirst(t: string)
    requires t != [] && !IsSpace(t[0])
    ensures Words(Collapse(t)) == Words(t)
    decreases |t|, 0
  {
    var w, rest := WordsSplitWord(t);
    CollapseWord(w, rest);
    WordsOfCollapse(rest);
    WordsOfWordThen(w, Collapse(rest));
  }

  /** Paragraph text as the enricher stores it: single-spaced, with no
      whitespace at either end. */
  ghost predicate Normalized(s: string) {
    SingleSpaced(s) && (s == [] || (!IsSpace(s[0]) && !IsSpace(s[|s| - 1])))
  }

  /** `re.sub(r'\s+', ' ', s.strip())` */
  function Normalize(s: string): string {
    Collapse(Strip(s))
  }

  /** Cleaned text is normalized and keeps exactly the visible characters
      of the input, in order. */
  lemma NormalizeSpec(s: string)
    ensures Normalized(Normalize(s))
    ensures Visible(Normalize(s)) == Visible(s)
  {
    var t := Strip(s);
    CollapseSpacing(t);
    CollapseKeepsVisible(t);
    StripKeepsVisible(s);
  }

  lemma {:induction false} TrimStartKeepsVisible(s: string)
    ensures Visible(TrimStart(s)) == Visible(s)
    decreases |s|
  {
    if s != [] && IsSpace(s[0]) {
      TrimStartKeepsVisible(s[1..]);
    }
  }

  lemma {:induction false} TrimEndKeepsVisible(s: string)
    ensures Visible(TrimEnd(s)) == Visible(s)
    decreases |s|
  {
    if s != [] && IsSpace(s[|s| - 1]) {
      var p := s[..|s| - 1];
      TrimEndKeepsVisible(p);
      assert s == p + [s[|s| - 1]];
      VisibleAppend(p, [s[|s| - 1]]);
    }
  }

  lemma StripKeepsVisible(s: string)
    ensures Visible(Strip(s)) == Visible(s)
  {
    TrimStartKeepsVisible(s);
    TrimEndKeepsVisible(TrimStart(s));
  }

  /** A normalized text cut just before a visible character is normalized. */
  lemma NormalizedSuffix(t: string, k: nat)
    requires Normalized(t) && k < |t| && !IsSpace(t[k])
    ensures Normalized(t[k..])
  {
    var u := t[k..];
    forall i | 0 <= i < |u| && IsSpace(u[i])
      ensures u[i] == ' '
    {
      assert u[i] == t[k + i];
    }
    forall i, j | 0 <= i < j < |u| && j == i + 1
      ensures !(IsSpace(u[i]) && IsSpace(u[j]))
    {
      assert u[i] == t[k + i] && u[j] == t[k + j];
    }
    assert u[|u| - 1] == t[|t| - 1];
  }

  /** A normalized text is its words joined by single spaces. */
  lemma {:induction false} JoinWordsOfNormalized(t: string)
    requires Normalized(t)
    ensures Join(Words(t)) == t
    decreases |t|, 1
  {
    if t != [] {
      var w, rest := WordsSplitWord(t);
      if rest == [] {
        assert t == w && Words(rest) == [];
        assert Words(t) == [w];
      } else {
        JoinWordsAcrossGap(t, w, rest);
      }
    }
  }

  /** The step of `JoinWordsOfNormalized` past the first word, when a single
      space and more text follow it. */
  lemma {:induction false} JoinWordsAcrossGap(t: string, w: string, rest: string)
    requires Normalized(t) && IsWord(w) && t == w + rest
    requires rest != [] && IsSpace(rest[0]) && Words(t) == [w] + Words(rest)
    ensures Join(Words(t)) == t
    decreases |t|, 0
  {
    var u := NormalizedGap(t, w, rest);
    JoinWordsOfNormalized(u);
    WordsDropSpace(rest, []);
    var w', rest' := WordsSplitWord(u);
    JoinCons(w, Words(u));
    AppendAssoc(w, " ", u);
  }

  /** In normalized text the whitespace after a word is one space, and
      normalized text follows it. */
  lemma NormalizedGap(t: string, w: string, rest: string) returns (u: string)
    requires Normalized(t) && t == w + rest && w != []
    requires rest != [] && IsSpace(rest[0])
    ensures rest == " " + u && Normalized(u) && u != [] && !IsSpace(u[0])
  {
    var k := |w|;
    assert rest[0] == t[k];
    assert |rest| >= 2 by {
      assert rest[|rest| - 1] == t[|t| - 1];
    }
    assert rest[0] == ' ' && !IsSpace(t[k + 1]);
    u := t[k + 1..];
    assert rest == " " + u;
    NormalizedSuffix(t, k + 1);
  }

  /** `' '.join` of a part followed by at least one more. */
  lemma JoinCons(w: string, ws: seq<string>)
    requires ws != []
    ensures Join([w] + ws) == w + " " + Join(ws)
  {
    assert ([w] + ws)[1..] == ws;
  }

  /** Cleaning a paragraph is Python's `' '.join(s.split())`: the words of
      the raw text, in order, each separated from the next by one space. */
  lemma NormalizeJoinsWords(s: string)
    ensures Normalize(s) == Join(Words(s))
  {
    NormalizeSpec(s);
    JoinWordsOfNormalized(Normalize(s));
    WordsOfCollapse(Strip(s));
    WordsOfStrip(s);
  }

  /** `' '.join(parts)` */
  function Join(parts: seq<string>): (r: string)
    ensures |parts| > 0 ==> |r| >= |parts| - 1
  {
    if parts == [] then []
    else if |parts| == 1 then parts[0]
    else parts[0] + " " + Join(parts[1..])
  }

  /** Joining non-empty normalized paragraphs with single spaces gives
      normalized text again. */
  lemma {:induction false} JoinNormalized(parts: seq<string>)
    requires forall k :: 0 <= k < |parts| ==> parts[k] != [] && Normalized(parts[k])
    ensures Normalized(Join(parts))
  {
    if |parts| > 1 {
      var a, b := parts[0], Join(parts[1..]);
      JoinNormalized(parts[1..]);
      assert b != [] by {
        assert parts[1..][0] != [];
        JoinNonEmpty(parts[1..]);
      }
      var r := a + " " + b;
      forall i | 0 <= i < |r| && IsSpace(r[i])
        ensures r[i] == ' ' && (i + 1 == |r| || !IsSpace(r[i + 1]))
      {
        if i < |a| {
          assert r[i] == a[i];
          if i + 1 < |a| { assert r[i + 1] == a[i + 1]; }
        } else if i == |a| {
          assert r[i + 1] == b[0];
        } else {
          assert r[i] == b[i - |a| - 1];
          if i + 1 < |r| { assert r[i + 1] == b[i - |a|]; }
        }
      }
      assert r[0] == a[0];
      assert r[|r| - 1] == b[|b| - 1];
    }
  }

  /** A join is empty only when every part is: two or more parts always
      leave a separator. */
  lemma JoinNonEmpty(parts: seq<string>)
    requires exists k :: 0 <= k < |parts| && parts[k] != []
    ensures Join(parts) != []
  {
    if |parts| == 1 {
      var k :| 0 <= k < |parts| && parts[k] != [];
      assert k == 0;
    }
  }

  /** An empty paragraph still takes a separator: between two others it
      leaves two spaces in a row, in front of another a leading space. */
  lemma JoinEmptyParagraph(a: string, b: string)
    ensures Join([a, "", b]) == a + "  " + b
    ensures Join(["", b]) == " " + b
    ensures !SingleSpaced(Join([a, "", b]))
  {
    assert ["", b][1..] == [b];
    assert [a, "", b][1..] == ["", b];
    assert Join(["", b]) == "" + " " + Join([b]) == " " + b;
    var r := Join([a, "", b]);
    assert r == a + " " + (" " + b) == a + "  " + b;
    assert r[|a|] == ' ' && r[|a| + 1] == ' ';
  }

  /** The words of each part, in order. */
  function WordsOfAll(parts: seq<string>): seq<string> {
    if parts == [] then [] else Words(parts[0]) + WordsOfAll(parts[1..])
  }

  /** Splitting a `' '.join` gives back the words of the parts, in order:
      the separator always falls between two words. */
  lemma {:induction false} WordsOfJoin(parts: seq<string>)
    ensures Words(Join(parts)) == WordsOfAll(parts)
  {
    if |parts| == 1 {
      assert WordsOfAll(parts) == Words(parts[0]) + [];
    } else if |parts| > 1 {
      var a, j := parts[0], Join(parts[1..]);
      WordsOfJoin(parts[1..]);
      WordsAppend(a + " ", j);
      WordsAppend(a, " ");
      WordsOfSpace(" ");
      assert Words(a + " ") == Words(a);
    }
  }

  /** Joining words and splitting again is the identity. */
  lemma {:induction false} SplitJoinRoundTrip(parts: seq<string>)
    requires forall k :: 0 <= k < |parts| ==> IsWord(parts[k])
    ensures Words(Join(parts)) == parts
  {
    WordsOfJoin(parts);
    WordsOfAllWords(parts);
  }

  lemma {:induction false} WordsOfAllWords(parts: seq<string>)
    requires forall k :: 0 <= k < |parts| ==> IsWord(parts[k])
    ensures WordsOfAll(parts) == parts
  {
    if parts != [] {
      WordsOfAllWords(parts[1..]);
      WordsOfWordThen(parts[0], []);
      assert parts[0] + [] == parts[0];
      assert parts == [parts[0]] + parts[1..];
    }
  }

  /** The capitals `lower()` maps here: ASCII `A`-`Z` and the Latin-1
      capitals `À`-`Þ`, the multiplication sign excepted. */
  predicate IsUpper(c: char) {
    'A' <= c <= 'Z' || ('\U{C0}' <= c <= '\U{DE}' && c != '\U{D7}')
  }

  /** `c.lower()` for ASCII and Latin-1 letters: each capital goes to the
      small letter 32 code points above it, which is no capital; every other
      character stays. */
  function LowerChar(c: char): (r: char)
    ensures IsUpper(c) ==> r as int == c as int + 32 && !IsUpper(r)
    ensures !IsUpper(c) ==> r == c
  {
    if IsUpper(c) then (c as int + 32) as char else c
  }

  function Lower(s: string): (r: string)
    ensures |r| == |s|
  {
    if s == [] then [] else [LowerChar(s[0])] + Lower(s[1..])
  }

  /** `lower()` maps each character on its own. */
  lemma {:induction false} LowerAt(s: string)
    ensures forall i :: 0 <= i < |s| ==> Lower(s)[i] == LowerChar(s[i])
  {
    if s != [] {
      LowerAt(s[1..]);
      assert Lower(s) == [LowerChar(s[0])] + Lower(s[1..]);
    }
  }

  /** A lower-cased text holds no capital. */
  lemma LowerHasNoCapital(s: string)
    ensures forall i :: 0 <= i < |Lower(s)| ==> !IsUpper(Lower(s)[i])
  {
    LowerAt(s);
  }

  /** `lower()` distributes over concatenation. */
  lemma {:induction false} LowerAppend(a: string, b: string)
    ensures Lower(a + b) == Lower(a) + Lower(b)
    decreases |a|
  {
    if a == [] {
      assert a + b == b;
    } else {
      assert (a + b)[1..] == a[1..] + b;
      LowerAppend(a[1..], b);
      AppendAssoc([LowerChar(a[0])], Lower(a[1..]), Lower(b));
    }
  }

  /** Lower-casing a lower-cased title changes nothing. */
  lemma LowerIdempotent(s: string)
    ensures Lower(Lower(s)) == Lower(s)
  {
    var l := Lower(s);
    LowerAt(s);
    LowerAt(l);
    forall i | 0 <= i < |s|
      ensures Lower(l)[i] == l[i]
    {
      assert LowerChar(LowerChar(s[i])) == LowerChar(s[i]);
    }
  }

  /** `sub` occurs in `s` at position `i`, compared character by character. */
  predicate OccursAt(s: string, sub: string, i: nat) {
    i + |sub| <= |s| && MatchesFrom(s, sub, i, 0)
  }

  /** The characters of `sub` from `k` on sit in `s` from `i + k` on. */
  predicate MatchesFrom(s: string, sub: string, i: nat, k: nat)
    requires i + |sub| <= |s| && k <= |sub|
    decreases |sub| - k
  {
    k == |sub| || (s[i + k] == sub[k] && MatchesFrom(s, sub, i, k + 1))
  }

  lemma {:induction false} MatchesFromSpec(s: string, sub: string, i: nat, k: nat)
    requires i + |sub| <= |s| && k <= |sub|
    ensures MatchesFrom(s, sub, i, k) <==> forall m :: k <= m < |sub| ==> s[i + m] == sub[m]
    decreases |sub| - k
  {
    if k < |sub| {
      MatchesFromSpec(s, sub, i, k + 1);
    }
  }

  /** The character-by-character test is the slice comparison. */
  lemma OccursAtSlice(s: string, sub: string, i: nat)
    ensures OccursAt(s, sub, i) <==> i + |sub| <= |s| && s[i..i + |sub|] == sub
  {
    if i + |sub| <= |s| {
      MatchesFromSpec(s, sub, i, 0);
      if s[i..i + |sub|] == sub {
        forall m | 0 <= m < |sub|
          ensures s[i + m] == sub[m]
        {
          assert s[i..i + |sub|][m] == s[i + m];
        }
      }
    }
  }

  /** `s.find(sub, i)`, with `None` for -1. */
  function FindFrom(s: string, sub: string, i: nat): (r: Option<nat>)
    requires i <= |s|
    ensures r.Some? ==> i <= r.value && r.value + |sub| <= |s|
    decreases |s| - i
  {
    if OccursAt(s, sub, i) then Some(i)
    else if i == |s| then None
    else FindFrom(s, sub, i + 1)
  }

  /** The search from `i` finds the first occurrence at or after `i`, and
      finds nothing only when there is none. */
  lemma {:induction false} FindFromSpec(s: string, sub: string, i: nat)
    requires i <= |s|
    ensures var r := FindFrom(s, sub, i);
            && (r.Some? ==> i <= r.value && OccursAt(s, sub, r.value))
            && (r.Some? ==> forall j :: i <= j < r.value ==> !OccursAt(s, sub, j))
            && (r.None? ==> forall j :: i <= j <= |s| ==> !OccursAt(s, sub, j))
    decreases |s| - i
  {
    if !OccursAt(s, sub, i) && i < |s| {
      FindFromSpec(s, sub, i + 1);
    }
  }

  /** `s.find(sub)` */
  function Find(s: string, sub: string): (r: Option<nat>)
    ensures r.Some? ==> r.value + |sub| <= |s|
  {
    FindFrom(s, sub, 0)
  }

  /** `s.find(sub)` is the first occurrence of `sub`, and is -1 only when
      `sub` does not occur. */
  lemma FindSpec(s: string, sub: string)
    ensures var r := Find(s, sub);
            && (r.Some? ==> OccursAt(s, sub, r.value) && forall j :: 0 <= j < r.value ==> !OccursAt(s, sub, j))
            && (r.None? ==> forall j :: 0 <= j <= |s| ==> !OccursAt(s, sub, j))
  {
    FindFromSpec(s, sub, 0);
  }

  /** `sub in s` */
  predicate Contains(s: string, sub: string) {
    Find(s, sub).Some?
  }

  /** `sub in s` holds exactly when `sub` occurs somewhere in `s`. */
  lemma ContainsSpec(s: string, sub: string)
    ensures Contains(s, sub) <==> exists i :: 0 <= i <= |s| && OccursAt(s, sub, i)
  {
    FindSpec(s, sub);
    if Contains(s, sub) {
      var i := Find(s, sub).value;
      assert 0 <= i <= |s| && OccursAt(s, sub, i);
    }
  }

  lemma ContainsAt(s: string, sub: string, i: nat)
    requires OccursAt(s, sub, i)
    ensures Contains(s, sub)
  {
    FindSpec(s, sub);
  }
}
