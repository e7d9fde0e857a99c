/**
 * The line parser of the API catalogue (`parse_api_data.py`): each line of the
 * spreadsheet export holds a rank, an API name, a category, a feature text, an
 * idea text and a URL run together. The regular expressions are written out as
 * scanning functions, and the grouping of the parsed entries by category is the
 * loop that builds the dictionary of lists.
 */
module ApiParse {
  import opened Wrappers
  import opened Text

  datatype ApiEntry = ApiEntry(rank: nat, apiName: string, category: string, features: string, idea: string, url: string)

  // ================================================================ URL

  /**
   * Whether `https?://[^\s]+` matches at `i`, and then the length of its scheme part:
   * 8 for "https://", 7 for "http://"; at least one non-space character must follow.
   */
  function SchemeAt(line: string, i: nat): (r: Option<nat>)
    requires i <= |line|
    ensures r.Some? ==> i + r.value < |line| && !IsSpace(line[i + r.value])
    ensures r.Some? ==> (r.value == 8 && "https://" <= line[i..]) || (r.value == 7 && "http://" <= line[i..])
    ensures r.None? && "https://" <= line[i..] ==> i + 8 == |line| || IsSpace(line[i + 8])
    ensures r.None? && "http://" <= line[i..] ==> i + 7 == |line| || IsSpace(line[i + 7])
  {
    if "https://" <= line[i..] && i + 8 < |line| && !IsSpace(line[i + 8]) then Some(8)
    else if "http://" <= line[i..] && i + 7 < |line| && !IsSpace(line[i + 7]) then Some(7)
    else None
  }

  /** `re.search`: the leftmost position at or after `from` where the URL pattern matches. */
  function UrlStart(line: string, from: nat): (r: Option<nat>)
    requires from <= |line|
    ensures r.Some? ==> from <= r.value < |line| && SchemeAt(line, r.value).Some?
    ensures forall j :: from <= j < (if r.Some? then r.value else |line|) ==> SchemeAt(line, j).None?
    decreases |line| - from
  {
    if from == |line| then None
    else if SchemeAt(line, from).Some? then Some(from)
    else UrlStart(line, from + 1)
  }

  /** The end of the run of non-whitespace characters starting at `from` (the greedy `[^\s]+`). */
  function NonSpaceEnd(s: string, from: nat): (r: nat)
    requires from <= |s|
    ensures from <= r <= |s| && (r < |s| ==> IsSpace(s[r]))
    ensures forall k :: from <= k < r ==> !IsSpace(s[k])
    decreases |s| - from
  {
    if from == |s| || IsSpace(s[from]) then from else NonSpaceEnd(s, from + 1)
  }

  /** The URL match as a pair of start and end positions. */
  function UrlMatch(line: string): (r: Option<(nat, nat)>)
    ensures r.Some? ==> r.value.0 < r.value.1 <= |line|
  {
    match UrlStart(line, 0)
    case None => None
    case Some(u) => Some((u, NonSpaceEnd(line, u + SchemeAt(line, u).value)))
  }

  /** The URL is the leftmost match, starts with a scheme, has no whitespace and cannot be extended. */
  lemma UrlShape(line: string)
    requires UrlMatch(line).Some?
    ensures var (u, e) := UrlMatch(line).value;
            var url := line[u..e];
            && ("https://" <= url || "http://" <= url)
            && NoSpace(url) && |url| > 7
            && (e == |line| || IsSpace(line[e]))
            && forall j :: 0 <= j < u ==> SchemeAt(line, j).None?
  {
    var (u, e) := UrlMatch(line).value;
    var m := SchemeAt(line, u).value;
    var scheme := line[u..u + m];
    assert line[u..][..m] == scheme;
    assert scheme == "https://" || scheme == "http://";
    SchemesHaveNoSpace();
    var url := line[u..e];
    assert url[..m] == scheme;
    forall k | 0 <= k < |url| ensures !IsSpace(url[k]) {
      if k < m { assert url[k] == scheme[k]; } else { assert url[k] == line[u + k]; }
    }
  }

  lemma SchemesHaveNoSpace()
    ensures NoSpace("https://") && NoSpace("http://")
  {
  }

  // ================================================================ rank

  /** The number of leading ASCII digits (`^(\d+)`). */
  function LeadingDigits(s: string): (r: nat)
    ensures r <= |s| && AllDigits(s[..r])
    ensures r < |s| ==> !IsDigit(s[r])
  {
    if s == [] || !IsDigit(s[0]) then 0
    else
      var r := 1 + LeadingDigits(s[1..]);
      assert s[..r] == [s[0]] + s[1..][..r - 1];
      r
  }

  /** A number written out in front of a non-digit is read back as the same digits. */
  lemma {:induction false} LeadingDigitsOf(digits: string, rest: string)
    requires AllDigits(digits)
    requires rest == [] || !IsDigit(rest[0])
    ensures LeadingDigits(digits + rest) == |digits|
    decreases |digits|
  {
    if digits != [] {
      assert (digits + rest)[1..] == digits[1..] + rest;
      LeadingDigitsOf(digits[1..], rest);
    } else {
      assert digits + rest == rest;
    }
  }

  // ================================================================ name

  predicate IsUpper(c: char) { 'A' <= c <= 'Z' }

  /** The class `[A-Za-z0-9\s\.\-]`. */
  predicate IsNameChar(c: char) {
    'A' <= c <= 'Z' || 'a' <= c <= 'z' || IsDigit(c) || IsSpace(c) || c == '.' || c == '-'
  }

  /** The end of the run of name characters starting at `from` (the greedy `*`). */
  function NameCharsEnd(s: string, from: nat): (r: nat)
    requires from <= |s|
    ensures from <= r <= |s| && (r < |s| ==> !IsNameChar(s[r]))
    ensures forall k :: from <= k < r ==> IsNameChar(s[k])
    decreases |s| - from
  {
    if from == |s| || !IsNameChar(s[from]) then from else NameCharsEnd(s, from + 1)
  }

  /**
   * The lazy `([A-Z][A-Za-z0-9\s\.\-]*?)([가-힣/])` after group 1 has reached `k`: try
   * group 2 at `k` first, otherwise extend group 1 by one character.
   */
  function LazyNameEnd(s: string, k: nat): Option<nat>
    requires k <= |s|
    decreases |s| - k
  {
    if k == |s| then None
    else if IsHangul(s[k]) || s[k] == '/' then Some(k)
    else if IsNameChar(s[k]) then LazyNameEnd(s, k + 1)
    else None
  }

  /** The first name pattern, the one that needs a Hangul syllable or `/` after the name. */
  function NameBeforeHangul(s: string): Option<nat> {
    if s != [] && IsUpper(s[0]) then LazyNameEnd(s, 1) else None
  }

  /** The fallback `^([A-Z][A-Za-z0-9\s\.\-]*)`. */
  function NameGreedy(s: string): Option<nat> {
    if s != [] && IsUpper(s[0]) then Some(NameCharsEnd(s, 1)) else None
  }

  /** The end of group 1 of whichever name pattern matches. */
  function NameEnd(s: string): Option<nat> {
    var m := NameBeforeHangul(s);
    if m.Some? then m else NameGreedy(s)
  }

  lemma {:induction false} LazyNameEndIsSpan(s: string, k: nat)
    requires k <= |s|
    requires LazyNameEnd(s, k).Some?
    ensures LazyNameEnd(s, k) == Some(NameCharsEnd(s, k))
    decreases |s| - k
  {
    if k < |s| && !(IsHangul(s[k]) || s[k] == '/') {
      LazyNameEndIsSpan(s, k + 1);
    }
  }

  /**
   * Both name patterns end group 1 at the same place, so the fallback only matters when
   * the first pattern fails; the name pattern matches exactly when the text starts with
   * an uppercase ASCII letter.
   */
  lemma NamePatternsAgree(s: string)
    ensures NameBeforeHangul(s).Some? ==> NameBeforeHangul(s) == NameGreedy(s)
    ensures NameEnd(s) == NameGreedy(s)
    ensures NameEnd(s).Some? <==> s != [] && IsUpper(s[0])
  {
    if NameBeforeHangul(s).Some? {
      LazyNameEndIsSpan(s, 1);
    }
  }

  // ================================================================ category

  /** The first Hangul syllable at or after `from`, or `|s|`. */
  function FirstHangul(s: string, from: nat): (r: nat)
    requires from <= |s|
    ensures from <= r <= |s| && (r < |s| ==> IsHangul(s[r]))
    ensures forall k :: from <= k < r ==> !IsHangul(s[k])
    decreases |s| - from
  {
    if from == |s| || IsHangul(s[from]) then from else FirstHangul(s, from + 1)
  }

  /**
   * `^([^가-힣]*?[/][^가-힣]*?)([가-힣]{2,})`: group 1 holds no Hangul, so group 2 can only
   * start at the first Hangul syllable; the pattern matches when a `/` comes before it
   * and a second syllable follows it.
   */
  function SlashCategory(s: string): (r: Option<nat>)
    ensures r.Some? ==> r.value + 2 <= |s| && IsHangul(s[r.value]) && IsHangul(s[r.value + 1])
    ensures r.Some? ==> '/' in s[..r.value] && forall k :: 0 <= k < r.value ==> !IsHangul(s[k])
  {
    var h := FirstHangul(s, 0);
    if h + 2 <= |s| && IsHangul(s[h + 1]) && '/' in s[..h] then Some(h) else None
  }

  /** Any split the first category pattern allows is the one `SlashCategory` finds. */
  lemma SlashCategoryUnique(s: string, p: nat)
    requires p + 2 <= |s| && IsHangul(s[p]) && IsHangul(s[p + 1])
    requires '/' in s[..p] && forall k :: 0 <= k < p ==> !IsHangul(s[k])
    ensures SlashCategory(s) == Some(p)
  {
  }

  /** The class `[가-힣A-Za-z/]`. */
  predicate IsCategoryChar(c: char) { IsHangul(c) || 'A' <= c <= 'Z' || 'a' <= c <= 'z' || c == '/' }

  predicate ThreeHangulAt(s: string, n: nat) {
    n + 3 <= |s| && IsHangul(s[n]) && IsHangul(s[n + 1]) && IsHangul(s[n + 2])
  }

  /** Group 1 of length `n` works for the fallback pattern. */
  predicate ShortCategoryFits(s: string, n: nat) {
    2 <= n <= 20 && n <= |s| && (forall k :: 0 <= k < n ==> IsCategoryChar(s[k])) && ThreeHangulAt(s, n)
  }

  /** The lazy `{2,20}?` of the fallback pattern: try the lengths `n`, `n + 1`, … up to 20. */
  function ShortCategoryFrom(s: string, n: nat): (r: Option<nat>)
    requires 2 <= n && n <= |s| + 1
    requires forall k :: 0 <= k < n - 1 ==> IsCategoryChar(s[k])
    ensures r.Some? ==> n <= r.value && ShortCategoryFits(s, r.value)
    ensures forall m :: n <= m <= (if r.Some? then r.value - 1 else 20) ==> !ShortCategoryFits(s, m)
    decreases 21 - n
  {
    if n > 20 || n > |s| then None
    else if !IsCategoryChar(s[n - 1]) then None
    else if ThreeHangulAt(s, n) then Some(n)
    else ShortCategoryFrom(s, n + 1)
  }

  /** `^([가-힣A-Za-z/]{2,20}?)([가-힣]{3,})`: the shortest group 1 that fits. */
  function ShortCategory(s: string): (r: Option<nat>)
    ensures r.Some? ==> ShortCategoryFits(s, r.value)
    ensures forall m :: 2 <= m <= (if r.Some? then r.value - 1 else 20) ==> !ShortCategoryFits(s, m)
  {
    if |s| >= 1 && IsCategoryChar(s[0]) then ShortCategoryFrom(s, 2) else None
  }

  /** The category and the text after it: `("", s)` when neither pattern matches. */
  function CategorySplit(s: string): (r: (string, string))
    ensures SlashCategory(s).None? && ShortCategory(s).None? ==> r == ("", s)
    ensures |r.0| <= |s| && r.1 == s[|r.0|..]
  {
    var m := if SlashCategory(s).Some? then SlashCategory(s) else ShortCategory(s);
    if m.None? then ("", s)
    else
      var category := Strip(s[..m.value]);
      (category, s[|category|..])
  }

  /** The category is the stripped group 1 of whichever category pattern matched. */
  lemma CategorySplitParts(s: string)
    ensures SlashCategory(s).Some? ==> CategorySplit(s).0 == Strip(s[..SlashCategory(s).value])
    ensures SlashCategory(s).None? && ShortCategory(s).Some? ==> CategorySplit(s).0 == Strip(s[..ShortCategory(s).value])
  {
  }

  /** The fallback category holds no whitespace: it is exactly the prefix it matched. */
  lemma ShortCategoryKept(s: string)
    requires SlashCategory(s).None? && ShortCategory(s).Some?
    ensures CategorySplit(s).0 == s[..ShortCategory(s).value]
  {
    var n := ShortCategory(s).value;
    assert forall k :: 0 <= k < n ==> s[..n][k] == s[k];
    StripNoSpace(s[..n]);
  }

  // ================================================================ features and idea

  /** The idea patterns: literal Korean words, and `내\s`. */
  datatype IdeaPattern = Word(text: string) | NaeSpace

  const IdeaPatterns: seq<IdeaPattern> :=
    [Word("유저의"), NaeSpace, Word("오늘"), Word("당신"), Word("어제"), Word("지금")]

  function MatchLen(p: IdeaPattern): nat {
    match p
    case Word(t) => |t|
    case NaeSpace => 2
  }

  predicate MatchesAt(s: string, p: IdeaPattern, i: nat)
    requires i <= |s|
  {
    match p
    case Word(t) => t <= s[i..]
    case NaeSpace => i + 2 <= |s| && s[i] == '내' && IsSpace(s[i + 1])
  }

  /** The first match of `p` at or after `from`. */
  function SearchFrom(s: string, p: IdeaPattern, from: nat): (r: Option<nat>)
    requires from <= |s|
    ensures r.Some? ==> from <= r.value && r.value + MatchLen(p) <= |s| && MatchesAt(s, p, r.value)
    ensures forall j :: from <= j < (if r.Some? then r.value else |s| + 1) && j <= |s| ==> !MatchesAt(s, p, j)
    decreases |s| - from
  {
    if MatchesAt(s, p, from) then Some(from)
    else if from == |s| then None
    else SearchFrom(s, p, from + 1)
  }

  /**
   * The split a pattern suggests: the start of its second match when `re.finditer` finds
   * two (it resumes after the end of the first), else of the only one.
   */
  function PatternSplit(s: string, p: IdeaPattern): (r: Option<nat>)
    ensures r.Some? <==> SearchFrom(s, p, 0).Some?
    ensures r.Some? ==> r.value <= |s| && MatchesAt(s, p, r.value)
  {
    match SearchFrom(s, p, 0)
    case None => None
    case Some(i1) =>
      match SearchFrom(s, p, i1 + MatchLen(p))
      case Some(i2) => Some(i2)
      case None => Some(i1)
  }

  /**
   * `re.finditer` resumes after the end of the first match, so the split is the first match
   * that starts at or after that end when there is one, and the first match otherwise.
   */
  lemma PatternSplitSecond(s: string, p: IdeaPattern)
    requires SearchFrom(s, p, 0).Some?
    ensures var i1 := SearchFrom(s, p, 0).value;
            var next := i1 + MatchLen(p);
            var r := PatternSplit(s, p).value;
            && (forall j :: 0 <= j < i1 ==> !MatchesAt(s, p, j))
            && ((exists j :: next <= j <= |s| && MatchesAt(s, p, j))
                ==> next <= r && forall j :: next <= j < r ==> !MatchesAt(s, p, j))
            && (!(exists j :: next <= j <= |s| && MatchesAt(s, p, j)) ==> r == i1)
  {
  }

  /** The split position: from the first pattern that matches, or the middle. */
  function SplitSpec(s: string, patterns: seq<IdeaPattern>): (r: nat)
    ensures r <= |s|
  {
    if patterns == [] then |s| / 2
    else match PatternSplit(s, patterns[0])
      case Some(q) => q
      case None => SplitSpec(s, patterns[1..])
  }

  /** The loop over the idea patterns that sets `split_pos`, breaking at the first pattern found. */
  method SplitPosition(remaining: string) returns (splitPos: nat)
    ensures splitPos == SplitSpec(remaining, IdeaPatterns)
  {
    splitPos := |remaining| / 2;
    var i := 0;
    while i < |IdeaPatterns|
      invariant 0 <= i <= |IdeaPatterns|
      invariant SplitSpec(remaining, IdeaPatterns[i..]) == SplitSpec(remaining, IdeaPatterns)
      invariant splitPos == |remaining| / 2
    {
      assert IdeaPatterns[i..][1..] == IdeaPatterns[i + 1..];
      var m := PatternSplit(remaining, IdeaPatterns[i]);
      if m.Some? {
        splitPos := m.value;
        return;
      }
      i := i + 1;
    }
  }

  /** When no pattern occurs the split is the middle of the text. */
  lemma {:induction false} SplitSpecMiddle(s: string, patterns: seq<IdeaPattern>)
    requires forall k :: 0 <= k < |patterns| ==> SearchFrom(s, patterns[k], 0).None?
    ensures SplitSpec(s, patterns) == |s| / 2
  {
    if patterns != [] {
      assert forall k :: 0 <= k < |patterns[1..]| ==> patterns[1..][k] == patterns[k + 1];
      SplitSpecMiddle(s, patterns[1..]);
    }
  }

  /**
   * Otherwise the split is the one the first pattern that occurs at all suggests: its second
   * match, or its only one.
   */
  lemma {:induction false} SplitSpecFirst(s: string, patterns: seq<IdeaPattern>, k: nat)
    requires k < |patterns| && SearchFrom(s, patterns[k], 0).Some?
    requires forall j :: 0 <= j < k ==> SearchFrom(s, patterns[j], 0).None?
    ensures PatternSplit(s, patterns[k]).Some? && SplitSpec(s, patterns) == PatternSplit(s, patterns[k]).value
    ensures MatchesAt(s, patterns[k], SplitSpec(s, patterns))
  {
    if k > 0 {
      assert SearchFrom(s, patterns[0], 0).None?;
      assert patterns[1..][k - 1] == patterns[k];
      assert forall j :: 0 <= j < k - 1 ==> patterns[1..][j] == patterns[j + 1];
      SplitSpecFirst(s, patterns[1..], k - 1);
    }
  }

  /** A piece of a text without whitespace is left alone by stripping. */
  lemma StripPiece(s: string, i: nat, j: nat)
    requires i <= j <= |s| && NoSpace(s)
    ensures Strip(s[i..j]) == s[i..j]
  {
    assert forall k :: 0 <= k < j - i ==> s[i..j][k] == s[i + k];
    StripNoSpace(s[i..j]);
  }

  /** Without whitespace in the text the two parts put back together give the text. */
  lemma SplitLosesNothing(remaining: string, pos: nat)
    requires pos <= |remaining| && NoSpace(remaining)
    ensures Strip(remaining[..pos]) + Strip(remaining[pos..]) == remaining
  {
    StripPiece(remaining, 0, pos);
    StripPiece(remaining, pos, |remaining|);
    assert remaining[0..pos] == remaining[..pos] && remaining[pos..|remaining|] == remaining[pos..];
    assert remaining[..pos] + remaining[pos..] == remaining;
  }

  // ================================================================ the line

  /**
   * The fields after the rank: the name, then the category, then the feature and idea
   * texts; `None` when the name pattern does not match.
   */
  function ParseFields(afterRank: string): (r: Option<(string, string, string, string)>)
    ensures r.Some? <==> afterRank != [] && IsUpper(afterRank[0])
    ensures r.Some? ==> r.value.0 != [] && IsUpper(r.value.0[0]) && r.value.0 <= afterRank
  {
    NamePatternsAgree(afterRank);
    match NameEnd(afterRank)
    case None => None
    case Some(k) =>
      var apiName := Strip(afterRank[..k]);
      NameStrip(afterRank, k);
      var (category, afterCategory) := CategorySplit(afterRank[|apiName|..]);
      var remaining := Strip(afterCategory);
      var pos := SplitSpec(remaining, IdeaPatterns);
      Some((apiName, category, Strip(remaining[..pos]), Strip(remaining[pos..])))
  }

  /**
   * The name is the run of name characters after the uppercase letter, stripped; the
   * category is split off the text after the name; the rest, stripped, is cut at the
   * idea split into the feature and idea texts, each stripped.
   */
  lemma ParseFieldsParts(afterRank: string)
    requires afterRank != [] && IsUpper(afterRank[0])
    ensures var r := ParseFields(afterRank).value;
            && |r.0| <= |afterRank|
            && r.0 == Strip(afterRank[..NameCharsEnd(afterRank, 1)])
            && var (category, afterCategory) := CategorySplit(afterRank[|r.0|..]);
               var remaining := Strip(afterCategory);
               var pos := SplitSpec(remaining, IdeaPatterns);
               && r.1 == category
               && r.2 == Strip(remaining[..pos])
               && r.3 == Strip(remaining[pos..])
  {
    NamePatternsAgree(afterRank);
  }

  /** `parse_api_line`. */
  function ParseApiLine(line: string): (r: Option<ApiEntry>)
    ensures UrlMatch(line).None? ==> r.None?
    ensures UrlMatch(line).Some? && LeadingDigits(line) == 0 ==> r.None?
    ensures r.Some? ==> var (u, e) := UrlMatch(line).value; r.value.url == line[u..e]
    ensures r.Some? ==> var d := LeadingDigits(line);
                        0 < d && AllDigits(line[..d]) && r.value.rank == DigitsValue(line[..d])
  {
    match UrlMatch(line)
    case None => None
    case Some((u, e)) =>
      var beforeUrl := line[..u];
      var d := LeadingDigits(beforeUrl);
      LeadingDigitsBefore(line, u);
      if d == 0 then None
      else
        assert beforeUrl[..d] == line[..d];
        match ParseFields(beforeUrl[d..])
        case None => None
        case Some((apiName, category, features, idea)) =>
          Some(ApiEntry(DigitsValue(beforeUrl[..d]), apiName, category, features, idea, line[u..e]))
  }

  /**
   * A line gives an entry exactly when it holds a URL, starts with a digit run, and has an
   * uppercase ASCII letter right after the digits; the fields are then those of the text
   * between the digits and the URL.
   */
  lemma ParseApiLineExactly(line: string)
    ensures var r := ParseApiLine(line);
            r.Some? <==> && UrlMatch(line).Some?
                         && 0 < LeadingDigits(line) < UrlMatch(line).value.0
                         && IsUpper(line[LeadingDigits(line)])
    ensures var r := ParseApiLine(line);
            r.Some? ==> var d := LeadingDigits(line);
                        var u := UrlMatch(line).value.0;
                        && d <= u
                        && ParseFields(line[d..u]) == Some((r.value.apiName, r.value.category, r.value.features, r.value.idea))
  {
    match UrlMatch(line)
    case None =>
    case Some((u, e)) =>
      LeadingDigitsBefore(line, u);
  }

  /** The digits before a non-digit are all the leading digits. */
  lemma {:induction false} LeadingDigitsBefore(line: string, u: nat)
    requires u < |line| && !IsDigit(line[u])
    ensures LeadingDigits(line[..u]) == LeadingDigits(line)
  {
    if u > 0 && IsDigit(line[0]) {
      assert line[..u][1..] == line[1..][..u - 1];
      LeadingDigitsBefore(line[1..], u - 1);
    }
  }

  /** The name keeps its uppercase first letter when its trailing whitespace is stripped. */
  lemma NameStrip(s: string, k: nat)
    requires NameGreedy(s) == Some(k)
    ensures var n := Strip(s[..k]); n != [] && IsUpper(n[0]) && |n| <= k && n == s[..|n|]
  {
    var t := s[..k];
    assert t[0] == s[0];
    var l := LStrip(t);
    assert l == t;
    var n := RStrip(l);
    assert n != [];
  }

  // ================================================================ the catalogue

  /** The line loop: the entries of the lines that parse, in order. */
  function ParsedEntries(lines: seq<string>): (r: seq<ApiEntry>)
    ensures |r| <= |lines|
  {
    if lines == [] then []
    else
      var rest := ParsedEntries(lines[..|lines| - 1]);
      match ParseApiLine(lines[|lines| - 1])
      case Some(x) => rest + [x]
      case None => rest
  }

  /** Every entry kept is the parse of one of the lines. */
  lemma {:induction false} ParsedEntriesFrom(lines: seq<string>)
    ensures forall x :: x in ParsedEntries(lines) ==> exists k :: 0 <= k < |lines| && ParseApiLine(lines[k]) == Some(x)
  {
    if lines != [] {
      var init := lines[..|lines| - 1];
      ParsedEntriesFrom(init);
      var last := ParseApiLine(lines[|lines| - 1]);
      assert ParsedEntries(lines) == ParsedEntries(init) + (if last.Some? then [last.value] else []);
      forall x | x in ParsedEntries(lines) ensures exists k :: 0 <= k < |lines| && ParseApiLine(lines[k]) == Some(x) {
        if x in ParsedEntries(init) {
          var k :| 0 <= k < |init| && ParseApiLine(init[k]) == Some(x);
          assert lines[k] == init[k];
        } else {
          assert last == Some(x);
        }
      }
    }
  }

  method ParseAll(lines: seq<string>) returns (apis: seq<ApiEntry>)
    ensures apis == ParsedEntries(lines)
  {
    apis := [];
    var i := 0;
    while i < |lines|
      invariant 0 <= i <= |lines|
      invariant apis == ParsedEntries(lines[..i])
    {
      assert lines[..i + 1][..i] == lines[..i];
      var parsed := ParseApiLine(lines[i]);
      if parsed.Some? {
        apis := apis + [parsed.value];
      }
      i := i + 1;
    }
    assert lines[..|lines|] == lines;
  }
}
