# OHADA chart-of-accounts scraper — a Dafny model

`index.py` reads the SYSCOHADA chart of accounts from a web page and writes
it out in several forms. This project models the parts of that script that
compute something. The data it handles is:

- the **classes** and **accounts** read from the table-of-contents strings
  `"<TYPE> <NUMBER> : <LABEL>"`;
- the **parent/child relations** between those codes;
- the split of the accounts into **tiers**: principal accounts, sub-accounts
  and analytic accounts;
- the rows of the **tree-visualisation** table;
- the **enriched classes**: every `h2` heading `CLASSE <n> – <label>`,
  filled with the five narrative sections (`contenu`, `commentaires`,
  `fonctionnement`, `exclusions`, `controles`) taken from the `h3`/`p`
  siblings that follow it;
- the **`INSERT OR REPLACE` load** into the two SQLite tables.

Modules, one per file:

- `Text` (`text.dfy`): the Python string operations the script relies on.
  These are `str.strip()`, `str.split()`, `re.sub(r'\s+', ' ', …)`,
  `str.lower()`, substring search with `in`, and `' '.join`. The whitespace
  set is the one `str.isspace()` and `\s` use.
- `Chart` (`chart.dfy`): the classifier loop.
- `Hierarchy` (`hierarchy.dfy`): the relations loops and the three tier
  lists.
- `Visualisation` (`visualisation.dfy`): the `id`/`parent_id` rows.
- `Sections` (`sections.dfy`): the enricher.
  - The document is the flat list of sibling elements, each a tag name and
    its text.
  - The class-heading regular expression is a deterministic scan over
    positions.
  - The three nested loops are three methods, each proved equal to a
    recursive specification function.
- `Database` (`database.dfy`): the load, with each table as a map from its
  primary key.

The label of a class or account taken from the table of contents is kept
exactly as it follows `" : "`, and is not stripped (`index.py:45-57`).

## Model

| member | source | states |
|---|---|---|
| Text.TrimStart | index.py:178 | the result is no longer than the input and does not start with whitespace |
| Text.TrimEnd | index.py:178 | the result is no longer than the input and does not end with whitespace |
| Text.Strip | index.py:178 | `strip()` leaves neither leading nor trailing whitespace |
| Text.TrimStartSplit | index.py:178 | the input is an all-whitespace prefix followed by the left-trimmed text |
| Text.TrimEndSplit | index.py:178 | the input is the right-trimmed text followed by an all-whitespace suffix |
| Text.StripSplit | index.py:178 | every string is whitespace + `strip()` of it + whitespace |
| Text.StripTrimmed | index.py:185 | `strip()` changes nothing on a text that neither starts nor ends with whitespace |
| Text.StripPadded | index.py:178 | `strip()` removes exactly the whitespace padding around such a text |
| Text.TrimStartPadded | index.py:178 | left trimming removes exactly a whitespace prefix |
| Text.TrimEndPadded | index.py:178 | right trimming removes exactly a whitespace suffix |
| Text.StripKeepsVisible | index.py:214 | `strip()` never removes a visible character |
| Text.TrimStartKeepsVisible | index.py:214 | left trimming keeps every visible character |
| Text.TrimEndKeepsVisible | index.py:214 | right trimming keeps every visible character |
| Text.LeadingWord | index.py:48 | the first word is a whitespace-free prefix that ends at whitespace or at the end |
| Text.Words | index.py:48 | `split()` yields only non-empty words without whitespace |
| Text.WordsKeepVisible | index.py:48 | the words of `split()`, put back together, are the visible characters of the input, in order |
| Text.VisibleAppend | index.py:48 | the visible characters of a concatenation are those of each part |
| Text.VisibleOfWord | index.py:48 | a word is all visible |
| Text.LeadingWordOf | index.py:48 | the first word of a word followed by whitespace is that word |
| Text.WordsOfWordThen | index.py:48 | `split()` of a word and the rest is the word, then the words of the rest |
| Text.WordsOfPair | index.py:48-51 | `"a b".split()` is `[a, b]` for two words |
| Text.WordsOfSpace | index.py:48 | whitespace alone has no words |
| Text.WordsAppend | index.py:48 | `split()` of a concatenation whose seam is whitespace is the words of the first part, then those of the second |
| Text.WordsOfStrip | index.py:178 | `strip()` does not change the words of a text |
| Text.Collapse | index.py:216 | `re.sub(r'\s+', ' ', …)` is empty only on empty input; the first character becomes a space exactly when it was whitespace; a visible last character is kept |
| Text.CollapseSpacing | index.py:216 | after collapsing, every whitespace character is a plain space and no two are adjacent |
| Text.CollapseKeepsVisible | index.py:216 | collapsing keeps the visible characters, in order |
| Text.AllSpaceInvisible | index.py:216 | an all-whitespace string has no visible characters |
| Text.CollapseSingleSpaced | index.py:216 | collapsing changes nothing on a single-spaced text |
| Text.CollapseIdempotent | index.py:216 | collapsing twice is collapsing once |
| Text.CollapseWord | index.py:216 | a word at the front passes through collapsing unchanged |
| Text.WordsOfCollapse | index.py:216 | collapsing keeps the words, in order: each whitespace run between two words stays a separator |
| Text.NormalizeSpec | index.py:214-216 | a cleaned paragraph is trimmed and single-spaced, and keeps the visible characters of the raw text |
| Text.Normalize | index.py:214-216 | defines the cleaning of a paragraph, `re.sub(r'\s+', ' ', s.strip())`; no contract of its own, its guarantees are the rows of `Text.NormalizeSpec` and `Text.NormalizeJoinsWords` |
| Text.NormalizedSuffix | index.py:214-216 | a cleaned text cut just before a visible character is still clean |
| Text.JoinWordsOfNormalized | index.py:214-220 | a cleaned text is its words joined by single spaces |
| Text.NormalizeJoinsWords | index.py:214-216 | cleaning a paragraph gives exactly its words, in order, with one space between each two: `' '.join(s.split())` |
| Text.Join | index.py:220 | `' '.join` puts a separator between the parts |
| Text.JoinNormalized | index.py:220 | joining non-empty cleaned paragraphs gives a cleaned text |
| Text.JoinNonEmpty | index.py:220 | the join of parts of which at least one is non-empty is non-empty |
| Text.JoinEmptyParagraph | index.py:217-220 | an empty `p` still takes a separator: between two paragraphs it leaves two spaces in a row, so the text is not single-spaced, and in front of another it leaves a leading space |
| Text.JoinCons | index.py:220 | the join of a part followed by more parts is that part, one space, and the join of the rest |
| Text.WordsOfAll | index.py:220 | the words of each part, in order; no contract of its own, used by `Text.WordsOfJoin` |
| Text.WordsOfJoin | index.py:220 | splitting a `' '.join` gives the words of the parts, in order: the separator always falls between words |
| Text.WordsOfAllWords | index.py:220 | a list of words is its own list of words |
| Text.SplitJoinRoundTrip | index.py:220 | `' '.join` of words, split again, gives back the same words in the same order |
| Text.LowerChar | index.py:206 | each ASCII or Latin-1 capital goes to the small letter 32 code points above it, which is no capital; every other character is unchanged |
| Text.Lower | index.py:206 | `lower()` keeps the length |
| Text.LowerIdempotent | index.py:206 | lower-casing an already lower-cased title changes nothing |
| Text.LowerAt | index.py:206 | `lower()` maps every character on its own, by the character mapping |
| Text.LowerHasNoCapital | index.py:206 | a lower-cased title holds no capital |
| Text.LowerAppend | index.py:206 | lower-casing a concatenation lower-cases each part |
| Text.FindFrom | index.py:44 | a hit lies at or after the start position and inside the string |
| Text.FindFromSpec | index.py:44 | the search returns the first occurrence from the start position, and nothing when there is none |
| Text.Find | index.py:44-45 | a hit lies inside the string |
| Text.FindSpec | index.py:44-45 | `split(" : ", 1)` splits at the first occurrence; none is found exactly when the substring does not occur |
| Text.MatchesFromSpec | index.py:44 | the character-by-character comparison succeeds exactly when every remaining character of the substring matches |
| Text.OccursAtSlice | index.py:44 | an occurrence at a position is the same as the slice there being equal to the substring |
| Text.ContainsAt | index.py:223-231 | an occurrence at any position makes `in` true |
| Text.Contains | index.py:44 | defines `sub in s` as a hit of the search; no contract of its own, pinned by `Text.ContainsSpec` |
| Text.ContainsSpec | index.py:44 | `sub in s` holds exactly when `sub` occurs at some position of `s` |
| Chart.TierOf | index.py:65-70 | two digits give a principal account, three a sub-account, any other count an analytic one, each as an if-and-only-if |
| Chart.ClassifyToken | index.py:42-81 | one string yields nothing unless it contains `" : "`; an account it yields satisfies the account invariant; a class number is a single word |
| Chart.ClassesOf | index.py:42-59 | the `classes` list after a prefix of the strings; every class number in it is a single word |
| Chart.ComptesOf | index.py:62-81 | every account collected satisfies the invariant: all digits, the first digit as parent class, the tier by length |
| Chart.Classify | index.py:42-81 | the loop's two lists are the classes and the accounts the strings yield, in input order |
| Chart.MalformedSkipped | index.py:44-49 | a string without `" : "`, or with fewer than two words before it, is skipped |
| Chart.TokenSplits | index.py:44-51 | in `"<TYPE> <NUMBER> : <LABEL>"` the first `" : "` follows the number, and the head splits into type and number |
| Chart.ClasseTokenYieldsClass | index.py:54-59 | a `CLASSE` string yields exactly the class `{numero, libelle}`, whether or not the number is numeric, with the label unstripped |
| Chart.AccountTokenYieldsAccount | index.py:62-81 | any other type word with an all-digit number yields exactly one account: parent class the first digit, tier by digit count |
| Chart.NonNumericTokenSkipped | index.py:62-63 | any other type word with a non-numeric number yields nothing |
| Chart.AtMostOnePerToken | index.py:42-81 | each string adds to at most one of the two lists |
| Chart.ClassifySnoc | index.py:42-81 | one more string appends exactly what that string yields |
| Chart.ClassifyAppend | index.py:42-81 | classifying a concatenation concatenates the results, so both lists keep input order |
| Hierarchy.DropLast | index.py:286 | `s[:-1]` removes the last character, and is `''` on `''` |
| Hierarchy.ParentCode | index.py:124-127 | the parent code is the number without its last digit, or `''` for a number of at most one character |
| Hierarchy.ParentCodeIsDropLast | index.py:124-127 | the length test is redundant: the parent code is always `numero[:-1]` |
| Hierarchy.BuildRelations | index.py:108-134 | one relation per class (no parent, level `classe`), then one per account (parent code, tier), in input order |
| Hierarchy.AncestorIsPrefix | index.py:124-125 | walking up parent codes shortens the number one digit at a time and reaches the parent class |
| Hierarchy.ParentOfAccount | index.py:65-73 | a principal account's parent code is its class; a deeper account's parent code is all digits in the same class; a sub-account's parent code has the principal tier (two digits) |
| Hierarchy.OfTier | index.py:139-141 | a tier list is no longer than the account list |
| Hierarchy.OfTierMembers | index.py:139-141 | a tier list holds exactly the accounts of that tier |
| Hierarchy.OfTierIsSubsequence | index.py:139-141 | each tier list keeps the accounts' order |
| Hierarchy.TiersDisjoint | index.py:139-141 | no account is in two tier lists |
| Hierarchy.TiersPartition | index.py:139-141 | the three tier lists together are a permutation of the accounts |
| Hierarchy.TiersLengths | index.py:139-145 | the lengths of the three tier lists add up to the number of accounts |
| Visualisation.VisualisationRows | index.py:272-294 | the class rows come first and the account rows after, each row built from its record, in input order |
| Visualisation.RowShapes | index.py:272-294 | class rows are roots with weight 100; account rows always name a parent and weigh 50 |
| Visualisation.IdsNeverClash | index.py:274-290 | a class id and an account id never coincide |
| Visualisation.ParentIdMatchesRelation | index.py:283-287 | for accounts of two or more digits, the parent id points at the row the relations name as parent |
| Visualisation.ClassRow | index.py:272-278 | defines a class row; no contract of its own, its shape is stated by `Visualisation.RowShapes` and `Visualisation.VisualisationRows` |
| Visualisation.AccountRow | index.py:281-294 | defines an account row; no contract of its own, its shape and parent are stated by `Visualisation.RowShapes` and `Visualisation.ParentIdMatchesRelation` |
| Visualisation.SingleDigitAccountDangles | index.py:283-287 | a one-digit account gets the parent id `compte_`, while its relation has no parent |
| Visualisation.DanglingParentNamesNoRow | index.py:272-294 | that parent id `compte_` is the id of no row built from well-formed classes and accounts |
| Sections.Blank | index.py:190-198 | a new record carries the heading's number and label, and every narrative field is empty |
| Sections.SetField | index.py:223-232 | assigning one field sets it and leaves the other fields, the number and the label unchanged |
| Sections.MatchStripped | index.py:181-185 | defines the match and its two groups on stripped text; no contract of its own, both directions are `Sections.HeadingRecognised` and `Sections.HeadingOnlyFromPattern` |
| Sections.ParseClassHeading | index.py:178-185 | defines the heading test on an `h2` text: strip, then match; no contract of its own, pinned by the same two lemmas |
| Sections.SkipSpace | index.py:181 | `\s*` stops at the first non-whitespace character at or after the start |
| Sections.SkipDigits | index.py:181 | `\d*` stops at the first non-digit at or after the start |
| Sections.KeywordIsPrefix | index.py:181 | the character-by-character keyword test is the same as the text starting with `CLASSE` |
| Sections.NoLineBreakInSuffix | index.py:181 | `(.+)$` runs to the end only when the rest holds no line break |
| Sections.SkipSpaceSpans | index.py:181 | everything `\s*` steps over is whitespace |
| Sections.SkipDigitsSpans | index.py:181 | everything `\d*` steps over is a digit |
| Sections.SkipSpaceAt | index.py:181 | a whitespace scan stops exactly at the end of the run |
| Sections.SkipDigitsAt | index.py:181 | a digit scan stops exactly at the end of the run |
| Sections.MatchAt | index.py:181-185 | when the scan positions line up, the match succeeds with those groups |
| Sections.HeadingRecognised | index.py:178-185 | every heading text of the form `CLASSE ws digits ws sep ws label`, padded with whitespace, is recognised with that number and label |
| Sections.StrippedRecognised | index.py:181-185 | the same for a text with no padding |
| Sections.HeadingOnlyFromPattern | index.py:178-185 | every recognised heading has exactly that form, and its label is the caption |
| Sections.MatchedShape | index.py:181-185 | an accepted stripped text splits into the pieces of the pattern, with the number and label as its groups |
| Sections.AcceptedPieces | index.py:181 | the slices between the scan positions of an accepted stripped text are the whitespace, number, separator and label pieces of the pattern |
| Sections.CaptionShape | index.py:181-185 | the label group starts and ends visibly, holds no line break, and `strip()` leaves it unchanged |
| Sections.SeparatorNeedsSpaceBefore | index.py:181 | `CLASSE 2: X` is rejected, because the pattern needs whitespace before the separator |
| Sections.ParagraphsNormalized | index.py:212-218 | every collected paragraph is trimmed and single-spaced |
| Sections.Paragraphs | index.py:209-218 | defines the cleaned `p` texts up to the next `h2` or `h3`; no contract of its own, `Sections.CollectParagraphs` is proved equal to it |
| Sections.SectionText | index.py:220 | defines a subsection's text as the `' '.join` of its paragraphs; no contract of its own, see `Sections.SectionTextNormalized` and `Text.WordsOfJoin` |
| Sections.SectionTextNormalized | index.py:212-220 | the text of a subsection is normalized whenever none of its paragraphs is empty (see `Text.JoinEmptyParagraph` for an empty one) |
| Sections.SpanEnd | index.py:203 | the walk stops at the next `h2` or at the end, and passes no `h2` on the way |
| Sections.FillSections | index.py:203-234 | filling keeps the record's number and label |
| Sections.UnselectedFieldKept | index.py:222-232 | a field that no subsection title selects keeps its value |
| Sections.FillStep | index.py:203-234 | one step of the middle loop inside a heading's span applies that sibling and leaves the span's end unchanged |
| Sections.Title | index.py:206 | defines the title as compared, `get_text().strip().lower()`; no contract of its own |
| Sections.FieldFrom | index.py:223-232 | defines the keyword search from the `i`-th keyword on; no contract of its own, pinned by `Sections.FieldOfOrder` and `Sections.FieldFromSkips` |
| Sections.FieldOf | index.py:223-232 | defines the field a title selects; no contract of its own, pinned by `Sections.FieldOfOrder` |
| Sections.FieldFromSkips | index.py:223-232 | keywords a title does not contain are passed over in the chain |
| Sections.KeywordSelects | index.py:206-232 | an `h3` whose stripped text holds a keyword in any mix of capitals selects that keyword's field, unless an earlier keyword is in its title |
| Sections.CapitalContenuSelects | index.py:206-224 | an `h3` whose text holds `CONTENU` in capitals selects `contenu` |
| Sections.CapitalControleSelects | index.py:206-232 | an `h3` whose text holds `CONTRÔLE` in capitals, and no earlier keyword, selects `controles` |
| Sections.Visit | index.py:203-232 | defines what one sibling does to the record; no contract of its own, stated by `Sections.VisitSelected` and `Sections.VisitUnselected` |
| Sections.VisitSelected | index.py:205-232 | an `h3` whose title selects a field overwrites that field with its subsection's text |
| Sections.VisitUnselected | index.py:203-232 | any other sibling leaves the field as it was |
| Sections.SelectedThenKept | index.py:203-234 | a subsection selecting a field that no later subsection of the span selects decides that field |
| Sections.LastSubsectionWins | index.py:203-234 | from any starting record, including the blank record of a class heading, a field ends up holding the text of the last subsection whose title selects it: later `h3` headings overwrite earlier ones |
| Sections.ClassRecord | index.py:184-236 | the record of a heading carries the heading's number and label |
| Sections.CollectParagraphs | index.py:209-218 | the inner loop collects the cleaned texts of the `p` siblings up to the next `h2` or `h3` |
| Sections.FillClass | index.py:189-234 | the middle loop builds the record its heading defines |
| Sections.ApplySection | index.py:223-232 | the keyword chain assigns the text to the field the first matching keyword names, or changes nothing |
| Sections.FieldOfOrder | index.py:223-232 | the keyword table is tried in the order of the `if`/`elif` chain: `contenu`, `commentaire`, `fonctionnement`, `exclusion`, then `contrôle` or `controle`; the first keyword the title contains wins |
| Sections.Enrich | index.py:177-236 | the outer loop yields the enriched classes of the document |
| Sections.EnrichedUpTo | index.py:177-236 | defines the enriched classes of the first `n` elements; no contract of its own, counted and ordered by `Sections.OnePerHeading` |
| Sections.Enriched | index.py:177-236 | defines `classes_enrichies` for the whole document; no contract of its own, `Sections.Enrich` is proved equal to it |
| Sections.HeadingsAt | index.py:175-178 | the heading list holds, at each position, the heading of the element there |
| Sections.HeadingIndicesSpec | index.py:177-183 | the heading positions are exactly the positions holding a recognised heading, in increasing order |
| Sections.OnePerHeading | index.py:177-236 | exactly one enriched class per recognised `h2`, in document order; the k-th is the record of the k-th heading |
| Sections.UnselectedFieldBlank | index.py:190-234 | a field no subsection of the class selects stays `''` |
| Database.UpsertAll | index.py:331-355 | defines a table after `INSERT OR REPLACE` of a sequence of rows; no contract of its own, pinned by `Database.UpsertKeys`, `Database.LastRowWins` and `Database.UntouchedRowKept` |
| Database.UpsertKeys | index.py:331-355 | after the load, a key is present exactly when it was present before or some written row carries it |
| Database.LastRowWins | index.py:331-355 | a key maps to the last row written with that key |
| Database.UntouchedRowKept | index.py:331-355 | a key that no written row carries keeps its old row |
| Database.DistinctKeysAllStored | index.py:331-355 | rows with distinct keys loaded into an empty table all stay, so the table has one row per record |
| Database.Store.constructor | index.py:300-329 | the database holds the given tables |
| Database.Store.InsertClasses | index.py:331-343 | the classes loop upserts each enriched class under its number and leaves `comptes` unchanged |
| Database.Store.InsertComptes | index.py:345-355 | the accounts loop upserts each account under its number and leaves `classes` unchanged |

## Left out

- Fetching the page, BeautifulSoup, `soup.title` and `find(id="toc")` are not modelled. The classifier takes the link strings as its input; the enricher takes the sibling elements after the headings as a flat list of (tag, text) pairs.
- A link whose `.string` is `None` is not modelled: the script would fail on `" : " in None`, and the model's strings are never absent.
- Only the siblings that follow an `h2` are modelled, at a single level. Headings nested at other depths of the page are not modelled.
- The CSV, JSON, Excel and SQLite writers, the `datetime` stamp, the statistics dictionary and every `print` are I/O and are not modelled.
- Database.Store: creating the tables, the foreign-key declaration, `commit` and `close` are not modelled. The tables already in the file are a constructor parameter; the SQL text of the column types is left out.
- Text.IsDigit: `\d` and `str.isdigit()` (`index.py:63`, `index.py:181`) also accept non-ASCII decimal digits, and `str.isdigit()` also accepts other digit characters such as the superscript `²`; the model accepts only `0`-`9`.
- Text.LowerChar: `str.lower()` is modelled for ASCII and the Latin-1 capitals only; other scripts are left unchanged.
- Sections.MatchStripped: the pattern is modelled on text that `strip()` has already trimmed, as in the script. The trailing-newline case of `$` cannot arise there and is not modelled.
- Chart.ClassifyToken: the label is kept as it stands after `" : "`, as the code does, not stripped.
