/** Slugs: deriving one from a title, and finding a free one. */
module Slug {
  import opened Texts

  const MAX_LENGTH := 80

  /** The parts of Unicode that slugs depend on: str.lower, NFKD, and which characters combine. */
  datatype Unicode = Unicode(lower: string -> string, decompose: string -> string, combining: char -> bool)

  predicate IsWordChar(c: char) {
    'a' <= c <= 'z' || '0' <= c <= '9'
  }

  predicate IsSlugChar(c: char) {
    IsWordChar(c) || c == '-'
  }

  predicate SlugChars(s: string) {
    forall i :: 0 <= i < |s| ==> IsSlugChar(s[i])
  }

  /** On text made of slug characters the three change nothing. */
  ghost predicate KeepsSlugChars(u: Unicode) {
    && (forall s :: SlugChars(s) ==> u.lower(s) == s && u.decompose(s) == s)
    && (forall c :: IsSlugChar(c) ==> !u.combining(c))
  }

  // ----- the steps of the rule -----------------------------------------------------------------------

  predicate IsSeparator(c: char) {
    IsSpace(c) || c == '_'
  }

  /** Every run of whitespace and underscores becomes one hyphen. */
  function Hyphenate(s: string, inRun: bool): string {
    if s == "" then ""
    else if IsSeparator(s[0]) then (if inRun then "" else "-") + Hyphenate(s[1..], true)
    else [s[0]] + Hyphenate(s[1..], false)
  }

  function Drop(s: string, unwanted: char -> bool): string {
    if s == "" then "" else (if unwanted(s[0]) then "" else [s[0]]) + Drop(s[1..], unwanted)
  }

  /** Every run of hyphens becomes one. */
  function Collapse(s: string): string {
    if s == "" then ""
    else if |s| > 1 && s[0] == '-' && s[1] == '-' then Collapse(s[1..])
    else [s[0]] + Collapse(s[1..])
  }

  function TrimLeft(s: string): string {
    if s != "" && s[0] == '-' then TrimLeft(s[1..]) else s
  }

  function TrimRight(s: string): string {
    if s != "" && s[|s| - 1] == '-' then TrimRight(s[..|s| - 1]) else s
  }

  function Trim(s: string): string {
    TrimRight(TrimLeft(s))
  }

  /** The words of the title, joined by hyphens; any length. */
  function Words(u: Unicode, title: string): string {
    var text := Hyphenate(u.lower(title), false);
    var plain := Drop(u.decompose(text), u.combining);
    Trim(Collapse(Drop(plain, c => !IsSlugChar(c))))
  }

  /** The position of the last hyphen, |s| when there is none. */
  function LastHyphen(s: string): (k: nat)
    ensures k <= |s|
    ensures k < |s| ==> s[k] == '-' && forall i :: k < i < |s| ==> s[i] != '-'
    ensures k == |s| ==> forall i :: 0 <= i < |s| ==> s[i] != '-'
  {
    if s == "" then 0
    else if s[|s| - 1] == '-' then |s| - 1
    else if LastHyphen(s[..|s| - 1]) == |s| - 1 then |s|
    else LastHyphen(s[..|s| - 1])
  }

  /** At most MAX_LENGTH characters, cut before the last hyphen among them. */
  function Shortened(text: string): string {
    if |text| <= MAX_LENGTH then text
    else Trim(text[..LastHyphen(text[..MAX_LENGTH])])
  }

  function Base(u: Unicode, title: string): string {
    var text := Shortened(Words(u, title));
    if text == "" then "untitled" else text
  }

  function Decimal(n: nat): string {
    if n < 10 then [(n + '0' as int) as char] else Decimal(n / 10) + Decimal(n % 10)
  }

  function Numbered(base: string, n: nat): string {
    base + "-" + Decimal(n)
  }

  // ----- the slug rule of the lint ------------------------------------------------------------------------

  /** [a-z0-9]+(-[a-z0-9]+)* up to the end, as a two-state automaton: at the start of a word, and within one. */
  predicate WordStart(s: string) {
    s != "" && IsWordChar(s[0]) && WithinWord(s[1..])
  }

  predicate WithinWord(s: string) {
    s == "" || (IsWordChar(s[0]) && WithinWord(s[1..])) || (s[0] == '-' && WordStart(s[1..]))
  }

  /** The lint's pattern: its "$" also matches before a newline that ends the text. */
  predicate MatchesPattern(s: string) {
    WordStart(s) || (s != "" && s[|s| - 1] == '\n' && WordStart(s[..|s| - 1]))
  }

  predicate LintAccepts(slug: string) {
    MatchesPattern(slug) && |slug| <= MAX_LENGTH
  }

  /** What the pattern is meant to accept. */
  predicate Proper(slug: string) {
    WordStart(slug) && |slug| <= MAX_LENGTH
  }

  predicate NoDouble(s: string) {
    forall i :: 0 <= i < |s| - 1 ==> !(s[i] == '-' && s[i + 1] == '-')
  }

  /** What the automaton accepts, read off the characters. */
  predicate Shaped(s: string) {
    s != "" && SlugChars(s) && NoDouble(s) && s[0] != '-' && s[|s| - 1] != '-'
  }

  lemma {:induction false} ShapedIsAccepted(s: string)
    ensures Shaped(s) <==> WordStart(s)
    decreases |s|, 1
  {
    if s != "" {
      var rest := s[1..];
      WithinIsShaped(rest);
      assert forall i :: 0 <= i < |rest| ==> rest[i] == s[i + 1];
      assert forall i :: 0 < i < |s| ==> s[i] == rest[i - 1];
    }
  }

  /** Within a word a hyphen may follow. */
  predicate ShapedRest(s: string) {
    SlugChars(s) && NoDouble(s) && (s != "" ==> s[|s| - 1] != '-')
  }

  lemma {:induction false} WithinIsShaped(s: string)
    ensures ShapedRest(s) <==> WithinWord(s)
    decreases |s|, 0
  {
    if s != "" {
      var rest := s[1..];
      WithinIsShaped(rest);
      ShapedIsAccepted(rest);
      assert forall i :: 0 <= i < |rest| ==> rest[i] == s[i + 1];
      assert forall i :: 0 < i < |s| ==> s[i] == rest[i - 1];
    }
  }

  /** The lint's pattern accepts exactly the shaped texts, each with or without a newline behind it. */
  lemma PatternAccepts(s: string)
    ensures MatchesPattern(s) <==> Shaped(s) || (s != "" && s[|s| - 1] == '\n' && Shaped(s[..|s| - 1]))
  {
    ShapedIsAccepted(s);
    if s != "" {
      ShapedIsAccepted(s[..|s| - 1]);
    }
  }

  // ----- the base is well shaped ---------------------------------------------------------------------------

  lemma {:induction false} DropLeavesWanted(s: string)
    ensures SlugChars(Drop(s, c => !IsSlugChar(c)))
  {
    if s != "" {
      DropLeavesWanted(s[1..]);
    }
  }

  lemma {:induction false} CollapseLeavesNoDouble(s: string)
    requires SlugChars(s)
    ensures SlugChars(Collapse(s)) && NoDouble(Collapse(s))
    ensures s != "" ==> Collapse(s) != "" && Collapse(s)[0] == s[0]
  {
    if s != "" {
      CollapseLeavesNoDouble(s[1..]);
    }
  }

  lemma {:induction false} TrimLeftShape(s: string)
    requires SlugChars(s) && NoDouble(s)
    ensures var t := TrimLeft(s); SlugChars(t) && NoDouble(t) && |t| <= |s| && (t != "" ==> t[0] != '-')
  {
    if s != "" {
      TrimLeftShape(s[1..]);
    }
  }

  lemma {:induction false} TrimRightShape(s: string)
    requires SlugChars(s) && NoDouble(s) && (s != "" ==> s[0] != '-')
    ensures var t := TrimRight(s); t == "" || (Shaped(t) && |t| <= |s|)
  {
    if s != "" {
      TrimRightShape(s[..|s| - 1]);
    }
  }

  lemma TrimShape(s: string)
    requires SlugChars(s) && NoDouble(s)
    ensures Trim(s) == "" || (Shaped(Trim(s)) && |Trim(s)| <= |s|)
  {
    TrimLeftShape(s);
    TrimRightShape(TrimLeft(s));
  }

  lemma WordsShape(u: Unicode, title: string)
    ensures Words(u, title) == "" || Shaped(Words(u, title))
  {
    var plain := Drop(u.decompose(Hyphenate(u.lower(title), false)), u.combining);
    DropLeavesWanted(plain);
    CollapseLeavesNoDouble(Drop(plain, c => !IsSlugChar(c)));
    TrimShape(Collapse(Drop(plain, c => !IsSlugChar(c))));
  }

  /** A long text is cut to whole words: before a hyphen, the last one among its first 80 characters. Only a
      text without a hyphen there is cut within a word, after 80 characters. */
  lemma ShortenedIsWholeWords(text: string)
    requires Shaped(text) && |text| > MAX_LENGTH
    ensures var k := LastHyphen(text[..MAX_LENGTH]);
            && 0 < k <= MAX_LENGTH
            && Shortened(text) == text[..k] && Shaped(text[..k])
            && (k < MAX_LENGTH ==> text[k] == '-')
  {
    var k := LastHyphen(text[..MAX_LENGTH]);
    var cut := text[..k];
    assert k > 0;
    assert cut[|cut| - 1] != '-' by {
      assert k < MAX_LENGTH ==> text[k] == '-';
    }
  }

  /** The base slug of any title is proper, and so passes the lint. */
  lemma BaseIsAccepted(u: Unicode, title: string)
    ensures Proper(Base(u, title)) && LintAccepts(Base(u, title))
  {
    WordsShape(u, title);
    if |Words(u, title)| > MAX_LENGTH {
      ShortenedIsWholeWords(Words(u, title));
    }
    ShapedIsAccepted(Base(u, title));
  }

  // ----- the words of a title ------------------------------------------------------------------------------

  predicate IsWord(s: string) {
    s != "" && forall i :: 0 <= i < |s| ==> IsWordChar(s[i])
  }

  predicate IsGap(s: string) {
    s != "" && forall i :: 0 <= i < |s| ==> IsSeparator(s[i])
  }

  predicate AreWords(words: seq<string>, gaps: seq<string>) {
    && words != [] && |gaps| == |words|
    && forall i :: 0 <= i < |words| ==> IsWord(words[i]) && IsGap(gaps[i])
  }

  /** The words with a gap between each and the next; the last gap is not used. */
  function Spaced(words: seq<string>, gaps: seq<string>): string
    requires |gaps| == |words| > 0
  {
    if |words| == 1 then words[0] else words[0] + (gaps[0] + Spaced(words[1..], gaps[1..]))
  }

  function Hyphenated(words: seq<string>): string
    requires |words| > 0
  {
    if |words| == 1 then words[0] else words[0] + ("-" + Hyphenated(words[1..]))
  }

  lemma {:induction false} HyphenateWord(word: string, rest: string, inRun: bool)
    requires IsWord(word)
    ensures Hyphenate(word + rest, inRun) == word + Hyphenate(rest, false)
  {
    assert (word + rest)[1..] == word[1..] + rest;
    assert IsWordChar(word[0]) && !IsSeparator(word[0]);
    if |word| > 1 {
      HyphenateWord(word[1..], rest, false);
    } else {
      assert word[1..] + rest == rest;
    }
  }

  lemma {:induction false} HyphenateGap(gap: string, rest: string, inRun: bool)
    requires IsGap(gap)
    ensures Hyphenate(gap + rest, inRun) == (if inRun then "" else "-") + Hyphenate(rest, true)
  {
    assert (gap + rest)[1..] == gap[1..] + rest;
    assert IsSeparator(gap[0]);
    if |gap| > 1 {
      HyphenateGap(gap[1..], rest, true);
    } else {
      assert gap[1..] + rest == rest;
    }
  }

  /** A title without words is untitled. */
  lemma BlankTitleIsUntitled(u: Unicode, title: string)
    requires KeepsSlugChars(u) && (u.lower(title) == "" || IsGap(u.lower(title)))
    ensures Base(u, title) == "untitled"
  {
    var text := Hyphenate(u.lower(title), false);
    if u.lower(title) != "" {
      HyphenateGap(u.lower(title), "", false);
      assert u.lower(title) + "" == u.lower(title);
      assert text == "-";
    }
    assert SlugChars(text);
    DropKeeps(text, u.combining);
    DropKeeps(text, c => !IsSlugChar(c));
    assert TrimLeft("-") == TrimLeft("");
  }

  /** The separators among the ASCII characters. */
  lemma AsciiSeparator(c: char)
    requires ' ' <= c <= '~' || c in {'\t', '\n', '\r'}
    ensures IsSeparator(c) <==> c in {' ', '\t', '\n', '\r', '_'}
  {
    AsciiSpace(c);
  }

  /** What words are made of. */
  lemma WordCharsAre(c: char)
    ensures IsWordChar(c) <==> c in "abcdefghijklmnopqrstuvwxyz0123456789"
  {
  }

  lemma {:induction false} HyphenateSpaced(words: seq<string>, gaps: seq<string>, inRun: bool)
    requires AreWords(words, gaps)
    ensures Hyphenate(Spaced(words, gaps), inRun) == Hyphenated(words)
  {
    if |words| == 1 {
      HyphenateWord(words[0], "", inRun);
      assert words[0] + "" == words[0];
    } else {
      var rest := Spaced(words[1..], gaps[1..]);
      HyphenateWord(words[0], gaps[0] + rest, inRun);
      HyphenateGap(gaps[0], rest, false);
      HyphenateSpaced(words[1..], gaps[1..], true);
    }
  }

  lemma {:induction false} HyphenatedIsShaped(words: seq<string>)
    requires words != [] && forall i :: 0 <= i < |words| ==> IsWord(words[i])
    ensures Shaped(Hyphenated(words)) && IsWordChar(Hyphenated(words)[0])
  {
    if |words| > 1 {
      HyphenatedIsShaped(words[1..]);
    }
  }

  /** Words of letters and digits that are set apart by whitespace and underscores become one word each of the slug,
      set apart by single hyphens. */
  lemma WordsStayApart(u: Unicode, title: string, words: seq<string>, gaps: seq<string>)
    requires KeepsSlugChars(u) && AreWords(words, gaps) && u.lower(title) == Spaced(words, gaps)
    ensures Words(u, title) == Hyphenated(words)
    ensures |Hyphenated(words)| <= MAX_LENGTH ==> Base(u, title) == Hyphenated(words)
  {
    var text := Hyphenated(words);
    HyphenateSpaced(words, gaps, false);
    HyphenatedIsShaped(words);
    DropKeeps(text, u.combining);
    DropKeeps(text, c => !IsSlugChar(c));
    CollapseKeeps(text);
    TrimKeeps(text);
  }

  lemma TrimKeeps(s: string)
    requires s != "" && s[0] != '-' && s[|s| - 1] != '-'
    ensures Trim(s) == s
  {
  }

  // ----- slugs are fixed points ---------------------------------------------------------------------------

  lemma {:induction false} HyphenateKeeps(s: string)
    requires SlugChars(s)
    ensures Hyphenate(s, false) == s
  {
    if s != "" {
      HyphenateKeeps(s[1..]);
    }
  }

  lemma {:induction false} DropKeeps(s: string, unwanted: char -> bool)
    requires forall i :: 0 <= i < |s| ==> !unwanted(s[i])
    ensures Drop(s, unwanted) == s
  {
    if s != "" {
      DropKeeps(s[1..], unwanted);
    }
  }

  lemma {:induction false} CollapseKeeps(s: string)
    requires NoDouble(s)
    ensures Collapse(s) == s
  {
    if s != "" {
      CollapseKeeps(s[1..]);
    }
  }

  /** A proper slug is its own base slug. */
  lemma SlugIsItsOwnBase(u: Unicode, slug: string)
    requires KeepsSlugChars(u) && Proper(slug)
    ensures Base(u, slug) == slug
  {
    ShapedIsAccepted(slug);
    HyphenateKeeps(slug);
    DropKeeps(slug, u.combining);
    DropKeeps(slug, c => !IsSlugChar(c));
    CollapseKeeps(slug);
  }

  /** What the lint accepts is its own base slug unless a newline ends it. */
  lemma AcceptedIsFixedIff(u: Unicode, slug: string)
    requires KeepsSlugChars(u) && LintAccepts(slug)
    ensures Base(u, slug) == slug <==> slug[|slug| - 1] != '\n'
  {
    BaseIsAccepted(u, slug);
    ShapedIsAccepted(slug);
    if WordStart(slug) {
      SlugIsItsOwnBase(u, slug);
    }
  }

  /** The lint lets a slug with a newline behind it pass. */
  lemma TrailingNewlinePasses()
    ensures LintAccepts("a\n") && !Shaped("a\n")
  {
    assert "a\n"[..1] == "a" && "a"[1..] == "";
  }

  // ----- numbering ------------------------------------------------------------------------------------------

  lemma {:induction false} DecimalShape(n: nat)
    ensures Decimal(n) != "" && forall i :: 0 <= i < |Decimal(n)| ==> '0' <= Decimal(n)[i] <= '9'
  {
    if n >= 10 {
      DecimalShape(n / 10);
      DecimalShape(n % 10);
    }
  }

  /** The number that a text of digits writes. */
  function Value(s: string): int {
    if s == "" then 0 else 10 * Value(s[..|s| - 1]) + (s[|s| - 1] as int - '0' as int)
  }

  /** Numbers are written as they are read. */
  lemma {:induction false} DecimalReads(n: nat)
    ensures Value(Decimal(n)) == n
  {
    DecimalLast(n);
    var d := Decimal(n);
    if n >= 10 {
      DecimalReads(n / 10);
    } else {
      assert d[..|d| - 1] == "";
    }
  }

  lemma DecimalLast(n: nat)
    ensures var d := Decimal(n);
            && d != "" && d[|d| - 1] as int - '0' as int == n % 10
            && (n >= 10 ==> |d| > 1 && d[..|d| - 1] == Decimal(n / 10))
            && (n < 10 ==> |d| == 1)
  {
    DecimalShape(n / 10);
  }

  /** Different numbers are written differently. */
  lemma {:induction false} DecimalInjective(m: nat, n: nat)
    requires Decimal(m) == Decimal(n)
    ensures m == n
  {
    DecimalLast(m);
    DecimalLast(n);
    if m >= 10 && n >= 10 {
      DecimalInjective(m / 10, n / 10);
    }
  }

  lemma NumberedInjective(base: string, m: nat, n: nat)
    requires Numbered(base, m) == Numbered(base, n)
    ensures m == n
  {
    assert Decimal(m) == Numbered(base, m)[|base| + 1..];
    assert Decimal(n) == Numbered(base, n)[|base| + 1..];
    DecimalInjective(m, n);
  }

  lemma NumberedIsShaped(base: string, n: nat)
    requires Shaped(base)
    ensures Shaped(Numbered(base, n))
  {
    DecimalShape(n);
  }

  /** The base and its numbered forms below n. */
  function Tried(base: string, n: nat): (tried: set<string>)
    requires n >= 2
  {
    if n == 2 then {base} else Tried(base, n - 1) + {Numbered(base, n - 1)}
  }

  lemma {:induction false} TriedAre(base: string, n: nat, s: string)
    requires n >= 2
    ensures s in Tried(base, n) <==> s == base || exists m: nat :: 2 <= m < n && s == Numbered(base, m)
  {
    if n > 2 {
      TriedAre(base, n - 1, s);
    }
  }

  lemma {:induction false} TriedCount(base: string, n: nat)
    requires n >= 2
    ensures |Tried(base, n)| == n - 1
  {
    if n > 2 {
      TriedCount(base, n - 1);
      var last := Numbered(base, n - 1);
      TriedAre(base, n - 1, last);
      if m: nat :| 2 <= m < n - 1 && last == Numbered(base, m) {
        NumberedInjective(base, m, n - 1);
      }
    }
  }

  /** Pigeonhole: names that are all taken are no more than the taken ones. */
  lemma TriedWithinTaken(base: string, n: nat, taken: set<string>)
    requires n >= 2 && base in taken && forall m: nat :: 2 <= m < n ==> Numbered(base, m) in taken
    ensures n <= |taken| + 1
  {
    TriedCount(base, n);
    forall s | s in Tried(base, n)
      ensures s in taken
    {
      TriedAre(base, n, s);
    }
    assert taken == Tried(base, n) + (taken - Tried(base, n));
  }

  // ----- choosing a free slug -----------------------------------------------------------------------------------

  /** n is the least free suffix, and at most |taken| + 1. */
  ghost predicate LeastFree(base: string, taken: set<string>, n: nat) {
    && 2 <= n <= |taken| + 1
    && Numbered(base, n) !in taken
    && forall m: nat :: 2 <= m < n ==> Numbered(base, m) in taken
  }

  /** What the rule promises about the slug of a title, given the taken ones. */
  ghost predicate IsSlugFor(slug: string, base: string, taken: set<string>) {
    if base !in taken then slug == base
    else exists n: nat :: LeastFree(base, taken, n) && slug == Numbered(base, n)
  }

  method Slugify(u: Unicode, title: string, existing: seq<string>) returns (slug: string)
    ensures IsSlugFor(slug, Base(u, title), set s | s in existing)
  {
    var text := u.lower(title);
    text := Hyphenate(text, false);
    text := Drop(u.decompose(text), u.combining);
    text := Drop(text, c => !IsSlugChar(c));
    text := Trim(Collapse(text));
    if |text| > MAX_LENGTH {
      var head := text[..MAX_LENGTH];
      text := Trim(head[..LastHyphen(head)]);
      assert head[..LastHyphen(head)] == Words(u, title)[..LastHyphen(head)];
    }
    if text == "" {
      text := "untitled";
    }
    assert text == Base(u, title);
    var taken := set s | s in existing;
    if text !in taken {
      return text;
    }
    var suffix: nat := 2;
    while Numbered(text, suffix) in taken
      invariant suffix >= 2
      invariant forall m: nat :: 2 <= m < suffix ==> Numbered(text, m) in taken
      decreases |taken| + 2 - suffix
    {
      TriedWithinTaken(text, suffix, taken);
      suffix := suffix + 1;
    }
    TriedWithinTaken(text, suffix, taken);
    assert LeastFree(text, taken, suffix);
    return Numbered(text, suffix);
  }

  // ----- what slugs promise -----------------------------------------------------------------------------------------

  /** For every title and every finite set of taken slugs: the slug is not taken and has the shape the lint
      asks for. */
  lemma SlugIsFreeAndShaped(u: Unicode, title: string, taken: set<string>, slug: string)
    requires IsSlugFor(slug, Base(u, title), taken)
    ensures slug !in taken && WordStart(slug)
  {
    var base := Base(u, title);
    BaseIsAccepted(u, title);
    if base in taken {
      var n: nat :| LeastFree(base, taken, n) && slug == Numbered(base, n);
      ShapedIsAccepted(base);
      NumberedIsShaped(base, n);
      ShapedIsAccepted(slug);
    }
  }

  /** The rules determine the slug. */
  lemma SlugIsDetermined(base: string, taken: set<string>, a: string, b: string)
    requires IsSlugFor(a, base, taken) && IsSlugFor(b, base, taken)
    ensures a == b
  {
    if base in taken {
      var m: nat :| LeastFree(base, taken, m) && a == Numbered(base, m);
      var n: nat :| LeastFree(base, taken, n) && b == Numbered(base, n);
      assert m == n;
    }
  }

  /** A slug made without a collision is at most 80 characters long and is its own slug. */
  lemma FreeSlugIsFixed(u: Unicode, title: string, taken: set<string>, slug: string)
    requires KeepsSlugChars(u) && Base(u, title) !in taken && IsSlugFor(slug, Base(u, title), taken)
    ensures Proper(slug) && LintAccepts(slug) && Base(u, slug) == slug && IsSlugFor(slug, Base(u, slug), taken)
  {
    BaseIsAccepted(u, title);
    SlugIsItsOwnBase(u, slug);
  }

  lemma {:induction false} DecimalGrows(m: nat, n: nat)
    requires m <= n
    ensures 1 <= |Decimal(m)| <= |Decimal(n)|
  {
    if n >= 10 {
      DecimalGrows(if m < 10 then 0 else m / 10, n / 10);
    }
  }

  /** A numbered name is free and short enough for the lint. */
  predicate FreeAndFits(base: string, taken: set<string>, m: nat) {
    m >= 2 && Numbered(base, m) !in taken && |Numbered(base, m)| <= MAX_LENGTH
  }

  /** After a collision the slug passes the lint exactly when some numbered name is free and has at most 80
      characters: the least suffix is chosen whether or not it fits, but no other free one is shorter. */
  lemma NumberedSlugFitsIff(u: Unicode, title: string, taken: set<string>, slug: string)
    requires Base(u, title) in taken && IsSlugFor(slug, Base(u, title), taken)
    ensures LintAccepts(slug) <==> exists m: nat :: FreeAndFits(Base(u, title), taken, m)
  {
    var base := Base(u, title);
    var n: nat :| LeastFree(base, taken, n) && slug == Numbered(base, n);
    BaseIsAccepted(u, title);
    ShapedIsAccepted(base);
    NumberedIsShaped(base, n);
    ShapedIsAccepted(slug);
    if LintAccepts(slug) {
      assert FreeAndFits(base, taken, n);
    }
    if m: nat :| FreeAndFits(base, taken, m) {
      DecimalGrows(n, m);
    }
  }

  /** Two pages titled with the same 80 letters: the second slug has 82 characters, and the lint refuses it. */
  lemma LongCollisionIsRefused(u: Unicode, slug: string)
    requires KeepsSlugChars(u)
    requires var title := seq(80, _ => 'a'); IsSlugFor(slug, Base(u, title), {title})
    ensures |slug| == 82 && !LintAccepts(slug)
  {
    var title := seq(80, _ => 'a');
    ShapedIsAccepted(title);
    SlugIsItsOwnBase(u, title);
    var n: nat :| LeastFree(title, {title}, n) && slug == Numbered(title, n);
    assert n == 2;
  }
}
