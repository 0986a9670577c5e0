/** The section enricher (index.py, lines 177-236). The document is
    abstracted as the flat sequence of sibling elements, each a tag name and
    its text; every `h2` whose text reads `CLASSE <digits> <sep> <label>`
    starts an enriched class, and the `h3` subsections up to the next `h2`
    fill in its five narrative fields from the `p` paragraphs below them. */
module Sections {
  import opened Text

  /** One element of the document: its tag name and its `get_text()`. */
  datatype Element = Element(name: string, text: string)

  /** The two groups of the class-heading pattern. */
  datatype Heading = Heading(numero: string, libelle: string)

  /** The five narrative fields, in the order the keywords are tried. */
  datatype Field = Contenu | Commentaires | Fonctionnement | Exclusions | Controles

  /** An enriched class record. */
  datatype ClasseEnrichie = ClasseEnrichie(
    numero: string, libelle: string,
    contenu: string, commentaires: string, fonctionnement: string, exclusions: string, controles: string)

  /** The record a matching heading starts with: every field empty. */
  function Blank(h: Heading): (c: ClasseEnrichie)
    ensures c.numero == h.numero && c.libelle == h.libelle
    ensures forall f :: GetField(c, f) == ""
  {
    ClasseEnrichie(h.numero, h.libelle, "", "", "", "", "")
  }

  function GetField(c: ClasseEnrichie, f: Field): string {
    match f
    case Contenu => c.contenu
    case Commentaires => c.commentaires
    case Fonctionnement => c.fonctionnement
    case Exclusions => c.exclusions
    case Controles => c.controles
  }

  /** Assigning one field of the record leaves the others as they were. */
  function SetField(c: ClasseEnrichie, f: Field, v: string): (r: ClasseEnrichie)
    ensures GetField(r, f) == v
    ensures forall g :: g != f ==> GetField(r, g) == GetField(c, g)
    ensures r.numero == c.numero && r.libelle == c.libelle
  {
    match f
    case Contenu => c.(contenu := v)
    case Commentaires => c.(commentaires := v)
    case Fonctionnement => c.(fonctionnement := v)
    case Exclusions => c.(exclusions := v)
    case Controles => c.(controles := v)
  }

  // ---------------------------------------------------------------------
  // The class-heading pattern  ^CLASSE\s+(\d+)\s+[–:-]\s*(.+)$
  // ---------------------------------------------------------------------

  /** The separator class `[–:-]`: en dash, colon, hyphen. */
  const Dashes: set<char> := {'\U{2013}', ':', '-'}

  /** The first position at or after `i` that does not hold whitespace:
      what `\s*` consumes from `i`. */
  function SkipSpace(t: string, i: nat): (j: nat)
    requires i <= |t|
    ensures i <= j <= |t|
    ensures j == |t| || !IsSpace(t[j])
    decreases |t| - i
  {
    if i < |t| && IsSpace(t[i]) then SkipSpace(t, i + 1) else i
  }

  /** The first position at or after `i` that does not hold a digit: what
      `\d*` consumes from `i`. */
  function SkipDigits(t: string, i: nat): (j: nat)
    requires i <= |t|
    ensures i <= j <= |t|
    ensures j == |t| || !IsDigit(t[j])
    decreases |t| - i
  {
    if i < |t| && IsDigit(t[i]) then SkipDigits(t, i + 1) else i
  }

  /** `t` starts with the literal `CLASSE`, compared character by character. */
  predicate HasKeyword(t: string) {
    && |t| >= 6
    && t[0] == 'C' && t[1] == 'L' && t[2] == 'A' && t[3] == 'S' && t[4] == 'S' && t[5] == 'E'
  }

  lemma KeywordIsPrefix(t: string)
    ensures HasKeyword(t) <==> |t| >= 6 && t[..6] == "CLASSE"
  {
    if |t| >= 6 && t[..6] == "CLASSE" {
      assert t[..6][0] == 'C' && t[..6][1] == 'L' && t[..6][2] == 'A';
      assert t[..6][3] == 'S' && t[..6][4] == 'S' && t[..6][5] == 'E';
    }
  }

  /** No line break from position `d` to the end: `.` does not match one. */
  predicate NoLineBreakFrom(t: string, d: nat)
    requires d <= |t|
    decreases |t| - d
  {
    d == |t| || (t[d] != '\n' && NoLineBreakFrom(t, d + 1))
  }

  lemma {:induction false} NoLineBreakInSuffix(t: string, d: nat)
    requires d <= |t|
    ensures NoLineBreakFrom(t, d) <==> '\n' !in t[d..]
    decreases |t| - d
  {
    if d < |t| {
      NoLineBreakInSuffix(t, d + 1);
      assert t[d..] == [t[d]] + t[d + 1..];
    }
  }

  /** Where the number group starts: after `CLASSE` and the whitespace
      that follows it. */
  function NumberStart(t: string): nat
    requires HasKeyword(t)
  {
    SkipSpace(t, 6)
  }

  /** Where the number group ends: after the digits. */
  function NumberEnd(t: string): nat
    requires HasKeyword(t)
  {
    SkipDigits(t, NumberStart(t))
  }

  /** Where the separator must stand: after the whitespace that follows the
      digits. */
  function SeparatorAt(t: string): nat
    requires HasKeyword(t)
  {
    SkipSpace(t, NumberEnd(t))
  }

  /** Where the label group starts: after the separator and any whitespace. */
  function CaptionStart(t: string): nat
    requires HasKeyword(t) && SeparatorAt(t) < |t|
  {
    SkipSpace(t, SeparatorAt(t) + 1)
  }

  /** The pattern applied to text that `strip()` has already trimmed, as a
      scan over positions: `CLASSE`, at least one whitespace character, at
      least one digit, at least one whitespace character, a separator,
      optional whitespace, and a non-empty label that runs to the end
      without a line break. The repetitions before the separator are each
      followed by something they cannot match, so each takes the longest
      run it can. The `\s*` after the separator is not: `.` matches
      whitespace too, so `CLASSE 1 -  X` can be matched in several ways.
      The regex engine tries the longest run of `\s*` first, and on
      stripped text `(.+)$` succeeds from the end of that run whenever it
      succeeds from any earlier position, so taking the longest run gives
      the same groups as the engine. */
  predicate Accepts(t: string) {
    && HasKeyword(t)
    && 6 < NumberStart(t) < NumberEnd(t) < SeparatorAt(t) < |t|
    && t[SeparatorAt(t)] in Dashes
    && CaptionStart(t) < |t| && NoLineBreakFrom(t, CaptionStart(t))
  }

  /** The match and its two groups; the label is then stripped, as in the
      source. */
  function MatchStripped(t: string): Option<Heading> {
    if Accepts(t) then Some(Heading(t[NumberStart(t)..NumberEnd(t)], Strip(t[CaptionStart(t)..])))
    else None
  }

  /** `re.match(pattern, h2.get_text().strip())` and its two groups. */
  function ParseClassHeading(text: string): Option<Heading> {
    MatchStripped(Strip(text))
  }

  /** A heading text assembled from the pieces the pattern names, with the
      whitespace `strip()` removes around it. */
  function HeadingLine(pre: string, ws1: string, num: string, ws2: string, sep: char,
                       ws3: string, caption: string, post: string): string
  {
    pre + ("CLASSE" + ws1 + num + ws2 + [sep] + ws3 + caption) + post
  }

  /** The conditions under which the pieces fit the pattern. */
  predicate HeadingPieces(pre: string, ws1: string, num: string, ws2: string, sep: char,
                          ws3: string, caption: string, post: string)
  {
    && AllSpace(pre) && AllSpace(post)
    && ws1 != [] && AllSpace(ws1)
    && AllDigits(num)
    && ws2 != [] && AllSpace(ws2)
    && sep in Dashes
    && AllSpace(ws3)
    && caption != [] && !IsSpace(caption[0]) && !IsSpace(caption[|caption| - 1]) && '\n' !in caption
  }

  /** Everything a scan for whitespace steps over is whitespace. */
  lemma {:induction false} SkipSpaceSpans(t: string, i: nat)
    requires i <= |t|
    ensures forall k :: i <= k < SkipSpace(t, i) ==> IsSpace(t[k])
    decreases |t| - i
  {
    if i < |t| && IsSpace(t[i]) {
      SkipSpaceSpans(t, i + 1);
    }
  }

  /** Everything a scan for digits steps over is a digit. */
  lemma {:induction false} SkipDigitsSpans(t: string, i: nat)
    requires i <= |t|
    ensures forall k :: i <= k < SkipDigits(t, i) ==> IsDigit(t[k])
    decreases |t| - i
  {
    if i < |t| && IsDigit(t[i]) {
      SkipDigitsSpans(t, i + 1);
    }
  }

  /** A scan for whitespace stops exactly at the end of the run. */
  lemma {:induction false} SkipSpaceAt(t: string, i: nat, j: nat)
    requires i <= j <= |t|
    requires forall k :: i <= k < j ==> IsSpace(t[k])
    requires j == |t| || !IsSpace(t[j])
    ensures SkipSpace(t, i) == j
    decreases j - i
  {
    if i < j {
      SkipSpaceAt(t, i + 1, j);
    }
  }

  /** A scan for digits stops exactly at the end of the run. */
  lemma {:induction false} SkipDigitsAt(t: string, i: nat, j: nat)
    requires i <= j <= |t|
    requires forall k :: i <= k < j ==> IsDigit(t[k])
    requires j == |t| || !IsDigit(t[j])
    ensures SkipDigits(t, i) == j
    decreases j - i
  {
    if i < j {
      SkipDigitsAt(t, i + 1, j);
    }
  }

  /** The match succeeds exactly when the scan positions line up. */
  lemma MatchAt(t: string, a: nat, b: nat, c: nat, d: nat, num: string, caption: string)
    requires HasKeyword(t)
    requires 6 < a <= |t| && SkipSpace(t, 6) == a
    requires a < b <= |t| && SkipDigits(t, a) == b
    requires b < c < |t| && SkipSpace(t, b) == c && t[c] in Dashes
    requires c < d < |t| && SkipSpace(t, c + 1) == d && NoLineBreakFrom(t, d)
    requires t[a..b] == num && Strip(t[d..]) == caption
    ensures MatchStripped(t) == Some(Heading(num, caption))
  {
  }

  /** A string cut at the scan positions. */
  lemma Reassemble(t: string, a: nat, b: nat, c: nat, d: nat)
    requires 6 <= a <= b <= c < d <= |t|
    ensures t == t[..6] + t[6..a] + t[a..b] + t[b..c] + [t[c]] + t[c + 1..d] + t[d..]
  {
    assert t[..a] == t[..6] + t[6..a];
    assert t[..b] == t[..a] + t[a..b];
    assert t[..c] == t[..b] + t[b..c];
    assert t[..c + 1] == t[..c] + [t[c]];
    assert t[..d] == t[..c + 1] + t[c + 1..d];
    assert t == t[..d] + t[d..];
  }

  /** The runs the scans step over, as strings. */
  lemma ScannedRuns(t: string, i: nat)
    requires i <= |t|
    ensures AllSpace(t[i..SkipSpace(t, i)])
    ensures SkipDigits(t, i) > i ==> AllDigits(t[i..SkipDigits(t, i)])
  {
    SkipSpaceSpans(t, i);
    SkipDigitsSpans(t, i);
  }

  /** A scan for whitespace from `i` stops at `j` when `t[i..j]` is all
      whitespace and `t[j]`, if any, is not. */
  lemma SpaceRun(t: string, i: nat, j: nat)
    requires i <= j <= |t| && AllSpace(t[i..j]) && (j == |t| || !IsSpace(t[j]))
    ensures SkipSpace(t, i) == j
  {
    forall k | i <= k < j
      ensures IsSpace(t[k])
    {
      assert t[k] == t[i..j][k - i];
    }
    SkipSpaceAt(t, i, j);
  }

  /** A scan for digits from `i` stops at `j` when `t[i..j]` is all digits
      and `t[j]`, if any, is not a digit. */
  lemma DigitRun(t: string, i: nat, j: nat)
    requires i < j <= |t| && AllDigits(t[i..j]) && (j == |t| || !IsDigit(t[j]))
    ensures SkipDigits(t, i) == j
  {
    forall k | i <= k < j
      ensures IsDigit(t[k])
    {
      assert t[k] == t[i..j][k - i];
    }
    SkipDigitsAt(t, i, j);
  }

  /** A stripped text made of the pieces the pattern names is accepted, with
      the number and the label as its groups. */
  lemma StrippedRecognised(ws1: string, num: string, ws2: string, sep: char, ws3: string, caption: string)
    requires StrippedPieces(ws1, num, ws2, sep, ws3, caption)
    ensures MatchStripped("CLASSE" + ws1 + num + ws2 + [sep] + ws3 + caption) == Some(Heading(num, caption))
  {
    var t := "CLASSE" + ws1 + num + ws2 + [sep] + ws3 + caption;
    var a := 6 + |ws1|;
    var b := a + |num|;
    var c := b + |ws2|;
    var d := c + 1 + |ws3|;
    StrippedRuns(ws1, num, ws2, sep, ws3, caption);
    StrippedSlices(ws1, num, ws2, sep, ws3, caption);
    MatchLaidOut(t, a, b, c, d, ws1, num, ws2, sep, ws3, caption);
  }

  /** A text laid out as the pieces at the given positions is accepted. */
  lemma MatchLaidOut(t: string, a: nat, b: nat, c: nat, d: nat,
                     ws1: string, num: string, ws2: string, sep: char, ws3: string, caption: string)
    requires StrippedPieces(ws1, num, ws2, sep, ws3, caption)
    requires a == 6 + |ws1| && b == a + |num| && c == b + |ws2| && d == c + 1 + |ws3| && |t| == d + |caption|
    requires t[..6] == "CLASSE" && t[6..a] == ws1 && t[a] == num[0] && t[a..b] == num
    requires t[b..c] == ws2 && t[b] == ws2[0] && t[c] == sep && t[c + 1..d] == ws3
    requires t[d..] == caption && t[d] == caption[0]
    ensures MatchStripped(t) == Some(Heading(num, caption))
  {
    NoLineBreakInSuffix(t, d);
    SpaceRun(t, 6, a);
    DigitRun(t, a, b);
    SpaceRun(t, b, c);
    SpaceRun(t, c + 1, d);
    StripTrimmed(caption);
    KeywordIsPrefix(t);
    MatchAt(t, a, b, c, d, num, caption);
  }

  /** The three whitespace runs and the characters that end the four scans
      sit where the pieces put them. */
  lemma StrippedRuns(ws1: string, num: string, ws2: string, sep: char, ws3: string, caption: string)
    requires StrippedPieces(ws1, num, ws2, sep, ws3, caption)
    ensures var t := "CLASSE" + ws1 + num + ws2 + [sep] + ws3 + caption;
            var a := 6 + |ws1|;
            var b := a + |num|;
            var c := b + |ws2|;
            var d := c + 1 + |ws3|;
            && t[6..a] == ws1 && t[a] == num[0]
            && t[b..c] == ws2 && t[b] == ws2[0]
            && t[c + 1..d] == ws3 && t[d] == caption[0]
  {
    var p2 := "CLASSE" + ws1;
    var p3 := p2 + num;
    var p4 := p3 + ws2;
    var p5 := p4 + [sep];
    var p6 := p5 + ws3;
    var t := p6 + caption;
    assert t[6..|p2|] == ws1;
    assert t[|p3|..|p4|] == ws2;
    assert t[|p5|..|p6|] == ws3;
  }

  /** The literal, the separator and the two groups sit where the scans
      leave them. */
  lemma StrippedSlices(ws1: string, num: string, ws2: string, sep: char, ws3: string, caption: string)
    requires StrippedPieces(ws1, num, ws2, sep, ws3, caption)
    ensures var t := "CLASSE" + ws1 + num + ws2 + [sep] + ws3 + caption;
            var a := 6 + |ws1|;
            var b := a + |num|;
            var c := b + |ws2|;
            var d := c + 1 + |ws3|;
            && t[..6] == "CLASSE" && t[c] == sep && t[a..b] == num
            && t[d..] == caption
  {
    var p2 := "CLASSE" + ws1;
    var p3 := p2 + num;
    var p6 := p3 + ws2 + [sep] + ws3;
    var t := p6 + caption;
    assert t[..6] == "CLASSE";
    assert t[|p3| + |ws2|] == sep;
    assert t[|p2|..|p3|] == num;
    assert t[|p6|..] == caption;
  }

  /** Every heading of the expected shape is recognised, with its number and
      its label. */
  lemma HeadingRecognised(pre: string, ws1: string, num: string, ws2: string, sep: char,
                          ws3: string, caption: string, post: string)
    requires HeadingPieces(pre, ws1, num, ws2, sep, ws3, caption, post)
    ensures ParseClassHeading(HeadingLine(pre, ws1, num, ws2, sep, ws3, caption, post)) == Some(Heading(num, caption))
  {
    var t := "CLASSE" + ws1 + num + ws2 + [sep] + ws3 + caption;
    assert t[0] == 'C' && t[|t| - 1] == caption[|caption| - 1];
    StripPadded(pre, t, post);
    StrippedRecognised(ws1, num, ws2, sep, ws3, caption);
  }

  /** The pieces of a stripped text the pattern accepts. */
  predicate StrippedPieces(ws1: string, num: string, ws2: string, sep: char, ws3: string, caption: string) {
    HeadingPieces([], ws1, num, ws2, sep, ws3, caption, [])
  }

  /** A stripped text the pattern accepts splits into the pieces it names,
      and the groups are the number and the label. */
  lemma MatchedShape(t: string)
    requires MatchStripped(t).Some? && !IsSpace(t[|t| - 1])
    ensures exists ws1, num, ws2, sep, ws3, caption ::
              && StrippedPieces(ws1, num, ws2, sep, ws3, caption)
              && t == "CLASSE" + ws1 + num + ws2 + [sep] + ws3 + caption
              && MatchStripped(t).value == Heading(num, caption)
  {
    assert Accepts(t);
    KeywordIsPrefix(t);
    var a, b, c := NumberStart(t), NumberEnd(t), SeparatorAt(t);
    var d := CaptionStart(t);
    AcceptedPieces(t);
    var ws1, num, ws2, sep, ws3, caption := t[6..a], t[a..b], t[b..c], t[c], t[c + 1..d], t[d..];
    Reassemble(t, a, b, c, d);
    assert t == "CLASSE" + ws1 + num + ws2 + [sep] + ws3 + caption;
  }

  /** The pieces between the scan positions of an accepted stripped text. */
  lemma AcceptedPieces(t: string)
    requires Accepts(t) && !IsSpace(t[|t| - 1])
    ensures var a, b, c, d := NumberStart(t), NumberEnd(t), SeparatorAt(t), CaptionStart(t);
            StrippedPieces(t[6..a], t[a..b], t[b..c], t[c], t[c + 1..d], t[d..])
  {
    var a, b, c, d := NumberStart(t), NumberEnd(t), SeparatorAt(t), CaptionStart(t);
    ScannedRuns(t, 6);
    ScannedRuns(t, a);
    ScannedRuns(t, b);
    ScannedRuns(t, c + 1);
    CaptionShape(t, d);
  }

  /** Every recognised heading has the expected shape: the pattern accepts
      nothing else. */
  lemma HeadingOnlyFromPattern(text: string)
    requires ParseClassHeading(text).Some?
    ensures var h := ParseClassHeading(text).value;
            exists pre, ws1, ws2, sep, ws3, caption, post ::
              && HeadingPieces(pre, ws1, h.numero, ws2, sep, ws3, caption, post)
              && text == HeadingLine(pre, ws1, h.numero, ws2, sep, ws3, caption, post)
              && h.libelle == caption
  {
    var t := Strip(text);
    var pre, post := StripPadding(text);
    assert MatchStripped(t).Some? && !IsSpace(t[|t| - 1]);
    MatchedShape(t);
    var ws1, num, ws2, sep, ws3, caption :|
      && StrippedPieces(ws1, num, ws2, sep, ws3, caption)
      && t == "CLASSE" + ws1 + num + ws2 + [sep] + ws3 + caption
      && MatchStripped(t).value == Heading(num, caption);
    assert HeadingPieces(pre, ws1, num, ws2, sep, ws3, caption, post);
  }

  /** The label group of a stripped text: it starts and ends with a visible
      character, holds no line break, and stripping leaves it as it is. */
  lemma CaptionShape(t: string, d: nat)
    requires d < |t| && !IsSpace(t[|t| - 1])
    requires !IsSpace(t[d]) && NoLineBreakFrom(t, d)
    ensures var caption := t[d..];
            && caption != [] && !IsSpace(caption[0]) && !IsSpace(caption[|caption| - 1])
            && '\n' !in caption && Strip(caption) == caption
  {
    var caption := t[d..];
    assert caption[0] == t[d] && caption[|caption| - 1] == t[|t| - 1];
    NoLineBreakInSuffix(t, d);
    StripTrimmed(caption);
  }

  /** The pattern wants whitespace before the separator: `CLASSE 2: X` is
      not a class heading. */
  lemma SeparatorNeedsSpaceBefore(ws1: string, num: string, sep: char, rest: string)
    requires ws1 != [] && AllSpace(ws1) && AllDigits(num) && sep in Dashes
    ensures MatchStripped("CLASSE" + ws1 + num + [sep] + rest) == None
  {
    var t := "CLASSE" + ws1 + num + [sep] + rest;
    var a := 6 + |ws1|;
    var b := a + |num|;
    assert t[..6] == "CLASSE";
    KeywordIsPrefix(t);
    assert forall k :: 6 <= k < a ==> t[k] == ws1[k - 6];
    assert t[a] == num[0];
    SkipSpaceAt(t, 6, a);
    assert forall k :: a <= k < b ==> t[k] == num[k - a];
    assert t[b] == sep;
    SkipDigitsAt(t, a, b);
    SkipSpaceAt(t, b, b);
  }

  // ---------------------------------------------------------------------
  // Subsections
  // ---------------------------------------------------------------------

  /** The subsection title as the source compares it: stripped, lower-cased. */
  function Title(e: Element): string {
    Lower(Strip(e.text))
  }

  /** The keywords of the middle walk in the order they are tested, each
      with the field it selects. */
  const Keywords: seq<(string, Field)> :=
    [("contenu", Contenu), ("commentaire", Commentaires), ("fonctionnement", Fonctionnement),
     ("exclusion", Exclusions), ("contr\U{F4}le", Controles), ("controle", Controles)]

  /** The field selected by the first keyword from the `i`-th on that the
      title contains. */
  function FieldFrom(title: string, i: nat): Option<Field>
    decreases |Keywords| - i
  {
    if i >= |Keywords| then None
    else if Contains(title, Keywords[i].0) then Some(Keywords[i].1)
    else FieldFrom(title, i + 1)
  }

  /** The field a subsection title selects: the keywords are tried in a
      fixed order and the first one the title contains wins. */
  function FieldOf(title: string): Option<Field> {
    FieldFrom(title, 0)
  }

  /** The table is tested in the order of the source's `if`/`elif` chain:
      `contenu`, `commentaire`, `fonctionnement`, `exclusion`, then either
      spelling of `contrôle`. */
  lemma FieldOfOrder(title: string)
    ensures FieldOf(title)
         == if Contains(title, "contenu") then Some(Contenu)
            else if Contains(title, "commentaire") then Some(Commentaires)
            else if Contains(title, "fonctionnement") then Some(Fonctionnement)
            else if Contains(title, "exclusion") then Some(Exclusions)
            else if Contains(title, "contr\U{F4}le") || Contains(title, "controle") then Some(Controles)
            else None
  {
    assert FieldFrom(title, 6) == None;
    assert FieldFrom(title, 5) == if Contains(title, "controle") then Some(Controles) else None;
    assert FieldFrom(title, 4) == if Contains(title, "contr\U{F4}le") then Some(Controles) else FieldFrom(title, 5);
    assert FieldFrom(title, 3) == if Contains(title, "exclusion") then Some(Exclusions) else FieldFrom(title, 4);
    assert FieldFrom(title, 2) == if Contains(title, "fonctionnement") then Some(Fonctionnement) else FieldFrom(title, 3);
    assert FieldFrom(title, 1) == if Contains(title, "commentaire") then Some(Commentaires) else FieldFrom(title, 2);
  }

  /** Keywords from the `j`-th up to the `i`-th that a title does not
      contain are passed over. */
  lemma {:induction false} FieldFromSkips(title: string, j: nat, i: nat)
    requires j <= i <= |Keywords|
    requires forall m :: j <= m < i ==> !Contains(title, Keywords[m].0)
    ensures FieldFrom(title, j) == FieldFrom(title, i)
    decreases i - j
  {
    if j < i {
      FieldFromSkips(title, j + 1, i);
    }
  }

  /** `e` is an `h3` whose title selects field `f`. */
  predicate SetsField(e: Element, f: Field) {
    e.name == "h3" && FieldOf(Title(e)) == Some(f)
  }
  /** An `h3` whose stripped text holds the `i`-th keyword written in any
      mix of capitals (`CONTENU`, `Contr\U{F4}le`, ...) selects that keyword's
      field, unless its title also holds an earlier keyword. */
  lemma KeywordSelects(e: Element, pre: string, kw: string, post: string, i: nat)
    requires e.name == "h3" && i < |Keywords|
    requires Strip(e.text) == pre + kw + post && Lower(kw) == Keywords[i].0
    requires forall m :: 0 <= m < i ==> !Contains(Title(e), Keywords[m].0)
    ensures SetsField(e, Keywords[i].1)
  {
    var title, k := Title(e), Keywords[i].0;
    LowerAppend(pre + kw, post);
    LowerAppend(pre, kw);
    var p := |Lower(pre)|;
    assert title == Lower(pre) + k + Lower(post);
    assert title[p..p + |k|] == k;
    OccursAtSlice(title, k, p);
    ContainsAt(title, k, p);
    FieldFromSkips(title, 0, i);
  }

  /** `CONTENU` in capitals selects the `contenu` field: the title is
      lower-cased before the keyword tests. */
  lemma CapitalContenuSelects(e: Element, pre: string, post: string)
    requires e.name == "h3" && Strip(e.text) == pre + "CONTENU" + post
    ensures SetsField(e, Contenu)
  {
    assert Lower("CONTENU") == "contenu";
    KeywordSelects(e, pre, "CONTENU", post, 0);
  }

  /** The capital `\U{D4}` lower-cases to `\U{F4}` like the ASCII capitals. */
  lemma LowerControle()
    ensures Lower("CONTR\U{D4}LE") == "contr\U{F4}le"
  {
    LowerAppend("CONTR", "\U{D4}LE");
    LowerAppend("\U{D4}", "LE");
    assert Lower("CONTR") == "contr";
    assert Lower("\U{D4}") == "\U{F4}";
    assert Lower("LE") == "le";
    assert "CONTR" + "\U{D4}LE" == "CONTR\U{D4}LE";
    assert "\U{D4}" + "LE" == "\U{D4}LE";
    assert "contr" + ("\U{F4}" + "le") == "contr\U{F4}le";
  }

  /** `CONTR\U{D4}LE` in capitals selects the `controles` field when no
      earlier keyword occurs in the title. */
  lemma CapitalControleSelects(e: Element, pre: string, post: string)
    requires e.name == "h3" && Strip(e.text) == pre + "CONTR\U{D4}LE" + post
    requires forall m :: 0 <= m < 4 ==> !Contains(Title(e), Keywords[m].0)
    ensures SetsField(e, Controles)
  {
    LowerControle();
    KeywordSelects(e, pre, "CONTR\U{D4}LE", post, 4);
  }



  /** The cleaned texts of the `p` elements from `k` on, up to the next
      `h2` or `h3`. */
  function Paragraphs(doc: seq<Element>, k: nat): seq<string>
    requires k <= |doc|
    decreases |doc| - k
  {
    if k == |doc| || doc[k].name == "h2" || doc[k].name == "h3" then []
    else (if doc[k].name == "p" then [Normalize(doc[k].text)] else []) + Paragraphs(doc, k + 1)
  }

  /** Every collected paragraph is whitespace-normalized. */
  lemma {:induction false} ParagraphsNormalized(doc: seq<Element>, k: nat)
    requires k <= |doc|
    ensures forall m :: 0 <= m < |Paragraphs(doc, k)| ==> Normalized(Paragraphs(doc, k)[m])
    decreases |doc| - k
  {
    if k < |doc| && doc[k].name != "h2" && doc[k].name != "h3" {
      ParagraphsNormalized(doc, k + 1);
      var rest := Paragraphs(doc, k + 1);
      if doc[k].name == "p" {
        var x := Normalize(doc[k].text);
        NormalizeSpec(doc[k].text);
        assert Paragraphs(doc, k) == [x] + rest;
        forall m | 0 <= m < |[x] + rest|
          ensures Normalized(([x] + rest)[m])
        {
          if m > 0 {
            assert ([x] + rest)[m] == rest[m - 1];
          }
        }
      }
    }
  }

  predicate NoEmptyPart(ps: seq<string>) {
    forall m :: 0 <= m < |ps| ==> ps[m] != []
  }

  /** The text of the subsection whose `h3` is at `j`. */
  function SectionText(doc: seq<Element>, j: nat): string
    requires j < |doc|
  {
    Join(Paragraphs(doc, j + 1))
  }

  /** Subsection text is whitespace-normalized whenever none of its
      paragraphs is empty (an empty paragraph leaves a double space). */
  lemma SectionTextNormalized(doc: seq<Element>, j: nat)
    requires j < |doc|
    requires NoEmptyPart(Paragraphs(doc, j + 1))
    ensures Normalized(SectionText(doc, j))
  {
    ParagraphsNormalized(doc, j + 1);
    JoinNormalized(Paragraphs(doc, j + 1));
  }

  /** The index of the next `h2` at or after `j`, or the end of the document. */
  function SpanEnd(doc: seq<Element>, j: nat): (e: nat)
    requires j <= |doc|
    ensures j <= e <= |doc|
    ensures e == |doc| || doc[e].name == "h2"
    ensures forall m :: j <= m < e ==> doc[m].name != "h2"
    decreases |doc| - j
  {
    if j == |doc| || doc[j].name == "h2" then j else SpanEnd(doc, j + 1)
  }

  /** What the sibling at `j` does to the record: an `h3` whose title
      selects a field overwrites that field with its subsection's text;
      anything else leaves the record as it is. */
  function Visit(doc: seq<Element>, j: nat, c: ClasseEnrichie): ClasseEnrichie
    requires j < |doc|
  {
    if doc[j].name != "h3" then c
    else
      match FieldOf(Title(doc[j]))
      case Some(f) => SetField(c, f, SectionText(doc, j))
      case None => c
  }

  /** What the walk over the siblings from `j` to the next `h2` does to the
      record `c`. */
  function FillSections(doc: seq<Element>, j: nat, c: ClasseEnrichie): (r: ClasseEnrichie)
    requires j <= |doc|
    ensures r.numero == c.numero && r.libelle == c.libelle
    decreases |doc| - j
  {
    if j == |doc| || doc[j].name == "h2" then c
    else FillSections(doc, j + 1, Visit(doc, j, c))
  }

  /** No sibling from `lo` up to `hi` is an `h3` that selects `f`. */
  predicate NoneSelects(doc: seq<Element>, lo: nat, hi: nat, f: Field)
    requires hi <= |doc|
  {
    forall m {:trigger SetsField(doc[m], f)} :: lo <= m < hi ==> !SetsField(doc[m], f)
  }

  /** A field that no subsection of the span selects keeps its value: a
      heading that matches no keyword changes nothing. */
  lemma {:induction false} UnselectedFieldKept(doc: seq<Element>, j: nat, c: ClasseEnrichie, f: Field)
    requires j <= |doc|
    requires NoneSelects(doc, j, SpanEnd(doc, j), f)
    ensures GetField(FillSections(doc, j, c), f) == GetField(c, f)
    decreases |doc| - j
  {
    if j < |doc| && doc[j].name != "h2" {
      FillStep(doc, j, c);
      VisitUnselected(doc, j, c, f);
      UnselectedFieldKept(doc, j + 1, Visit(doc, j, c), f);
    }
  }

  /** A sibling that is not an `h3` selecting `f` leaves `f` as it was. */
  lemma VisitUnselected(doc: seq<Element>, j: nat, c: ClasseEnrichie, f: Field)
    requires j < |doc| && !SetsField(doc[j], f)
    ensures GetField(Visit(doc, j, c), f) == GetField(c, f)
  {
  }

  /** An `h3` selecting `f` overwrites `f` with its subsection's text. */
  lemma VisitSelected(doc: seq<Element>, j: nat, c: ClasseEnrichie, f: Field)
    requires j < |doc| && SetsField(doc[j], f)
    ensures GetField(Visit(doc, j, c), f) == SectionText(doc, j)
  {
  }

  /** One step of the middle walk inside the span of a heading. */
  lemma FillStep(doc: seq<Element>, j: nat, c: ClasseEnrichie)
    requires j < |doc| && doc[j].name != "h2"
    ensures SpanEnd(doc, j) == SpanEnd(doc, j + 1)
    ensures FillSections(doc, j, c) == FillSections(doc, j + 1, Visit(doc, j, c))
  {
  }

  /** The last subsection of the span that selects a field decides its
      value: a later `h3` with the same keyword overwrites an earlier one. */
  lemma {:induction false} LastSubsectionWins(doc: seq<Element>, j: nat, c: ClasseEnrichie, f: Field, k: nat)
    requires j <= |doc| && j <= k < SpanEnd(doc, j)
    requires SetsField(doc[k], f)
    requires NoneSelects(doc, k + 1, SpanEnd(doc, j), f)
    ensures GetField(FillSections(doc, j, c), f) == SectionText(doc, k)
    decreases |doc| - j
  {
    if j == k {
      SelectedThenKept(doc, j, c, f);
    } else {
      var c' := Visit(doc, j, c);
      FillStep(doc, j, c);
      LastSubsectionWins(doc, j + 1, c', f, k);
      assert GetField(FillSections(doc, j + 1, c'), f) == SectionText(doc, k);
    }
  }

  /** A subsection selecting `f` that no later subsection of the span
      overrides decides the value of `f`. */
  lemma SelectedThenKept(doc: seq<Element>, j: nat, c: ClasseEnrichie, f: Field)
    requires j < |doc| && doc[j].name != "h2" && SetsField(doc[j], f)
    requires NoneSelects(doc, j + 1, SpanEnd(doc, j), f)
    ensures GetField(FillSections(doc, j, c), f) == SectionText(doc, j)
  {
    FillStep(doc, j, c);
    VisitSelected(doc, j, c, f);
    UnselectedFieldKept(doc, j + 1, Visit(doc, j, c), f);
  }

  // ---------------------------------------------------------------------
  // The enriched classes
  // ---------------------------------------------------------------------

  /** What an element contributes as a heading: for an `h2`, the match of
      the class-heading pattern on its text; nothing for any other tag. */
  function HeadingOf(e: Element): Option<Heading> {
    if e.name == "h2" then ParseClassHeading(e.text) else None
  }

  /** The heading of every element of the document, in order. */
  function Headings(doc: seq<Element>): (hs: seq<Option<Heading>>)
    ensures |hs| == |doc|
  {
    if doc == [] then [] else Headings(doc[..|doc| - 1]) + [HeadingOf(doc[|doc| - 1])]
  }

  /** The heading list holds, at each position, the heading of the element
      there. */
  lemma {:induction false} HeadingsAt(doc: seq<Element>, i: nat)
    requires i < |doc|
    ensures Headings(doc)[i] == HeadingOf(doc[i])
    decreases |doc|
  {
    if i < |doc| - 1 {
      HeadingsAt(doc[..|doc| - 1], i);
    }
  }

  /** The record the class heading `h` at `i` yields: empty fields, filled by
      the subsections up to the next `h2`. */
  function ClassRecord(doc: seq<Element>, i: nat, h: Heading): (c: ClasseEnrichie)
    requires i < |doc|
    ensures c.numero == h.numero && c.libelle == h.libelle
  {
    FillSections(doc, i + 1, Blank(h))
  }

  /** `classes_enrichies` after the first `n` elements, given the heading of
      each element. */
  function EnrichedUpTo(doc: seq<Element>, hs: seq<Option<Heading>>, n: nat): seq<ClasseEnrichie>
    requires |hs| == |doc| && n <= |doc|
  {
    if n == 0 then []
    else
      EnrichedUpTo(doc, hs, n - 1)
      + (match hs[n - 1] case Some(h) => [ClassRecord(doc, n - 1, h)] case None => [])
  }

  /** `classes_enrichies` for the whole document. */
  function Enriched(doc: seq<Element>): seq<ClasseEnrichie> {
    EnrichedUpTo(doc, Headings(doc), |doc|)
  }

  /** The inner walk of the enricher: the cleaned texts of the `p`
      siblings after the `h3` at `j`, up to the next `h2` or `h3`. */
  method CollectParagraphs(doc: seq<Element>, j: nat) returns (contenuSection: seq<string>)
    requires j < |doc|
    ensures contenuSection == Paragraphs(doc, j + 1)
  {
    contenuSection := [];
    var k := j + 1;
    while k < |doc| && doc[k].name != "h2" && doc[k].name != "h3"
      invariant j + 1 <= k <= |doc|
      invariant contenuSection + Paragraphs(doc, k) == Paragraphs(doc, j + 1)
      decreases |doc| - k
    {
      if doc[k].name == "p" {
        var texte := Strip(doc[k].text);
        texte := Collapse(texte);
        assert Paragraphs(doc, k) == [texte] + Paragraphs(doc, k + 1);
        contenuSection := contenuSection + [texte];
      } else {
        assert Paragraphs(doc, k) == Paragraphs(doc, k + 1);
      }
      k := k + 1;
    }
  }

  /** The middle walk of the enricher: starting from a record with empty
      fields, each `h3` up to the next `h2` whose title contains a keyword
      overwrites the field the first such keyword names. */
  method FillClass(doc: seq<Element>, i: nat, h: Heading) returns (classeComplete: ClasseEnrichie)
    requires i < |doc|
    ensures classeComplete == ClassRecord(doc, i, h)
  {
    classeComplete := ClasseEnrichie(h.numero, h.libelle, "", "", "", "", "");
    var j := i + 1;
    while j < |doc| && doc[j].name != "h2"
      invariant i + 1 <= j <= |doc|
      invariant FillSections(doc, j, classeComplete) == ClassRecord(doc, i, h)
      decreases |doc| - j
    {
      ghost var before := classeComplete;
      if doc[j].name == "h3" {
        var titreSection := Lower(Strip(doc[j].text));
        var contenuSection := CollectParagraphs(doc, j);
        var texteComplet := Join(contenuSection);
        classeComplete := ApplySection(classeComplete, titreSection, texteComplet);
        assert titreSection == Title(doc[j]) && texteComplet == SectionText(doc, j);
      }
      assert classeComplete == Visit(doc, j, before);
      FillStep(doc, j, before);
      j := j + 1;
    }
  }

  /** The keyword tests of the middle walk: the first keyword the title
      contains names the field that receives the text. */
  method ApplySection(c: ClasseEnrichie, titreSection: string, texteComplet: string)
    returns (r: ClasseEnrichie)
    ensures r == match FieldOf(titreSection)
                 case Some(f) => SetField(c, f, texteComplet)
                 case None => c
  {
    FieldOfOrder(titreSection);
    r := c;
    if Contains(titreSection, "contenu") {
      r := r.(contenu := texteComplet);
    } else if Contains(titreSection, "commentaire") {
      r := r.(commentaires := texteComplet);
    } else if Contains(titreSection, "fonctionnement") {
      r := r.(fonctionnement := texteComplet);
    } else if Contains(titreSection, "exclusion") {
      r := r.(exclusions := texteComplet);
    } else if Contains(titreSection, "contr\U{F4}le") || Contains(titreSection, "controle") {
      r := r.(controles := texteComplet);
    }
  }

  /** The enricher: every `h2` whose stripped text matches the class-heading
      pattern yields one record, filled from the subsections that follow it. */
  method Enrich(doc: seq<Element>) returns (classesEnrichies: seq<ClasseEnrichie>)
    ensures classesEnrichies == Enriched(doc)
  {
    classesEnrichies := [];
    for i := 0 to |doc|
      invariant classesEnrichies == EnrichedUpTo(doc, Headings(doc), i)
    {
      HeadingsAt(doc, i);
      if doc[i].name == "h2" {
        var texteH2 := Strip(doc[i].text);
        var match_ := MatchStripped(texteH2);
        if match_.Some? {
          var classeComplete := FillClass(doc, i, match_.value);
          classesEnrichies := classesEnrichies + [classeComplete];
        }
      }
    }
  }

  /** The positions among the first `n` that hold a class heading, in
      document order. */
  function HeadingIndices(hs: seq<Option<Heading>>, n: nat): seq<nat>
    requires n <= |hs|
  {
    if n == 0 then []
    else HeadingIndices(hs, n - 1) + (if hs[n - 1].Some? then [n - 1] else [])
  }

  /** The heading positions are exactly the positions below `n` that hold a
      heading, in increasing order. */
  lemma {:induction false} HeadingIndicesSpec(hs: seq<Option<Heading>>, n: nat)
    requires n <= |hs|
    ensures forall k :: 0 <= k < |HeadingIndices(hs, n)| ==> HeadingIndices(hs, n)[k] < n && hs[HeadingIndices(hs, n)[k]].Some?
    ensures forall k, l :: 0 <= k < l < |HeadingIndices(hs, n)| ==> HeadingIndices(hs, n)[k] < HeadingIndices(hs, n)[l]
    ensures forall i :: 0 <= i < n && hs[i].Some? ==> i in HeadingIndices(hs, n)
  {
    if n > 0 {
      HeadingIndicesSpec(hs, n - 1);
      var p, r := HeadingIndices(hs, n - 1), HeadingIndices(hs, n);
      if hs[n - 1].Some? {
        assert r == p + [n - 1];
        forall k | 0 <= k < |r|
          ensures r[k] < n && hs[r[k]].Some?
        {
          if k < |p| {
            assert r[k] == p[k];
          }
        }
        forall k, l | 0 <= k < l < |r|
          ensures r[k] < r[l]
        {
          assert r[k] == p[k];
          if l < |p| {
            assert r[l] == p[l];
          }
        }
        forall i | 0 <= i < n && hs[i].Some?
          ensures i in r
        {
          if i < n - 1 {
            assert i in p;
          }
        }
      } else {
        assert r == p + [];
      }
    }
  }

  /** Exactly one enriched class per class heading, in document order: the
      `k`-th record is the one started by the `k`-th class heading. */
  lemma {:induction false} OnePerHeading(doc: seq<Element>, hs: seq<Option<Heading>>, n: nat)
    requires |hs| == |doc| && n <= |doc|
    ensures |EnrichedUpTo(doc, hs, n)| == |HeadingIndices(hs, n)|
    ensures forall k :: 0 <= k < |HeadingIndices(hs, n)| ==>
              var i := HeadingIndices(hs, n)[k];
              i < n && hs[i].Some? && EnrichedUpTo(doc, hs, n)[k] == ClassRecord(doc, i, hs[i].value)
  {
    if n > 0 {
      OnePerHeading(doc, hs, n - 1);
      var e, r := EnrichedUpTo(doc, hs, n - 1), HeadingIndices(hs, n - 1);
      match hs[n - 1]
      case None =>
        assert EnrichedUpTo(doc, hs, n) == e;
        assert HeadingIndices(hs, n) == r;
      case Some(h) =>
        var e', r' := EnrichedUpTo(doc, hs, n), HeadingIndices(hs, n);
        assert e' == e + [ClassRecord(doc, n - 1, h)];
        assert r' == r + [n - 1];
        forall k | 0 <= k < |r'|
          ensures r'[k] < n && hs[r'[k]].Some? && e'[k] == ClassRecord(doc, r'[k], hs[r'[k]].value)
        {
          if k < |r| {
            assert e'[k] == e[k] && r'[k] == r[k];
          }
        }
    }
  }

  /** A field that no subsection in the span of a class heading selects
      stays empty in its record. */
  lemma UnselectedFieldBlank(doc: seq<Element>, i: nat, h: Heading, f: Field)
    requires i < |doc| && NoneSelects(doc, i + 1, SpanEnd(doc, i + 1), f)
    ensures GetField(ClassRecord(doc, i, h), f) == ""
  {
    var c := Blank(h);
    assert ClassRecord(doc, i, h) == FillSections(doc, i + 1, c);
    UnselectedFieldKept(doc, i + 1, c, f);
  }
}
