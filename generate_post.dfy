/**
 * The decision logic of the draft generator (`generate_post.py`): the file-name slug,
 * the image-extension normaliser, the rate-limit classifier and the Claude-to-Gemini
 * fallback, the slot fallbacks of the image collector, the season label, the title
 * fallbacks and the argument checks of the revise mode. Downloads, LLM replies and
 * file existence are passed in as values.
 */
module GeneratePost {
  import opened Wrappers
  import opened Text

  // ================================================================ slugify

  /**
   * The characters `\w` accepts, restricted to the scripts the titles use: ASCII
   * letters and digits, `_`, Latin-1 letters, the kana letters (without the combining
   * and spacing sound marks, the double hyphen `゠` and the middle dot `・`), the Hangul
   * jamo and syllables and the CJK ideographs.
   */
  predicate IsWordChar(c: char) {
    ('a' <= c <= 'z') || ('A' <= c <= 'Z') || ('0' <= c <= '9') || c == '_'
    || ('\U{C0}' <= c <= '\U{FF}' && c != '\U{D7}' && c != '\U{F7}')
    || ('\U{3041}' <= c <= '\U{3096}') || ('\U{309D}' <= c <= '\U{309F}')
    || ('\U{30A1}' <= c <= '\U{30FA}') || ('\U{30FC}' <= c <= '\U{30FF}')
    || ('\U{3131}' <= c <= '\U{318E}')
    || ('\U{4E00}' <= c <= '\U{9FFF}') || ('\U{AC00}' <= c <= '\U{D7A3}')
  }

  lemma WordCharIsNotSpace(c: char)
    requires IsWordChar(c)
    ensures !IsSpace(c) && c != '-'
  {
  }

  /** A run separator of the second substitution: `-` or whitespace. */
  predicate IsSep(c: char) { c == '-' || IsSpace(c) }

  /** A character the first substitution of `slugify` keeps. */
  predicate IsSlugKept(c: char) { IsWordChar(c) || IsSep(c) }

  /** `re.sub(r"[^\w\s\-]", "", text)`: keep word characters, whitespace and `-`. */
  function KeepSlugChars(s: string): (r: string)
    ensures |r| <= |s|
    ensures forall i :: 0 <= i < |r| ==> IsWordChar(r[i]) || IsSep(r[i])
    ensures forall c :: c in r <==> c in s && IsSlugKept(c)
  {
    if s == [] then []
    else if IsWordChar(s[0]) || IsSep(s[0]) then [s[0]] + KeepSlugChars(s[1..])
    else KeepSlugChars(s[1..])
  }

  /** A single character is kept exactly when it is a word character, whitespace or `-`. */
  lemma KeepOne(c: char)
    ensures IsSlugKept(c) ==> KeepSlugChars([c]) == [c]
    ensures !IsSlugKept(c) ==> KeepSlugChars([c]) == []
  {
    assert [c][1..] == [];
  }

  /** The substitution works character by character: it distributes over concatenation. */
  lemma {:induction false} KeepAppend(a: string, b: string)
    ensures KeepSlugChars(a + b) == KeepSlugChars(a) + KeepSlugChars(b)
    decreases |a|
  {
    if a == [] {
      assert a + b == b;
    } else {
      assert (a + b)[0] == a[0] && (a + b)[1..] == a[1..] + b;
      KeepAppend(a[1..], b);
    }
  }

  /** The katakana middle dot is not a word character: "ア・イ" keeps only its two letters. */
  lemma MiddleDotDropped()
    ensures KeepSlugChars("ア・イ") == "アイ"
  {
    assert "ア・イ" == ['ア'] + ['・'] + ['イ'];
    KeepAppend(['ア'] + ['・'], ['イ']);
    KeepAppend(['ア'], ['・']);
    KeepOne('ア');
    KeepOne('・');
    KeepOne('イ');
  }

  /** Drop the leading run of separators. */
  function SkipSeps(s: string): (r: string)
    ensures |r| <= |s| && r == s[|s| - |r|..]
    ensures r == [] || !IsSep(r[0])
  {
    if s != [] && IsSep(s[0]) then SkipSeps(s[1..]) else s
  }

  /** `re.sub(r"[-\s]+", "-", text)`: every maximal run of separators becomes one `-`. */
  function Collapse(s: string): string
    decreases |s|
  {
    if s == [] then []
    else if IsSep(s[0]) then "-" + Collapse(SkipSeps(s[1..]))
    else [s[0]] + Collapse(s[1..])
  }

  /** Python's `s[:n]`, negative `n` counting from the end. */
  function SliceTo(s: string, n: int): (r: string)
    ensures |r| <= |s| && r == s[..|r|]
    ensures 0 <= n ==> |r| == if n < |s| then n else |s|
    ensures n < 0 ==> |r| == if -n < |s| then |s| + n else 0
  {
    if 0 <= n then (if n < |s| then s[..n] else s)
    else if -n < |s| then s[..|s| + n] else []
  }

  /** The slug before the "untitled" fallback. */
  function SlugCore(text: string, maxLen: int): string {
    SliceTo(StripChar(Collapse(KeepSlugChars(text)), '-'), maxLen)
  }

  /** `slugify(text, max_len)`. */
  function Slugify(text: string, maxLen: int): (r: string)
    ensures |r| > 0
  {
    var core := SlugCore(text, maxLen);
    if core == "" then "untitled" else core
  }

  /** Word characters and `-` only, no doubled hyphen. */
  predicate SlugChars(s: string) {
    && (forall i :: 0 <= i < |s| ==> IsWordChar(s[i]) || s[i] == '-')
    && (forall i :: 0 <= i < |s| - 1 ==> !(s[i] == '-' && s[i + 1] == '-'))
  }

  /** The shape every slug has: non-empty, slug characters, no leading hyphen. */
  predicate SlugShaped(s: string) {
    |s| > 0 && SlugChars(s) && s[0] != '-'
  }

  /** What `Collapse` produces from word characters and separators. */
  lemma {:induction false} CollapseFacts(s: string)
    requires forall i :: 0 <= i < |s| ==> IsWordChar(s[i]) || IsSep(s[i])
    ensures var c := Collapse(s);
            && SlugChars(c)
            && (c == [] <==> s == [])
            && (c != [] ==> (c[0] == '-' <==> IsSep(s[0])))
    decreases |s|
  {
    if s != [] {
      if IsSep(s[0]) {
        var t := SkipSeps(s[1..]);
        assert forall i :: 0 <= i < |t| ==> t[i] == s[1..][|s[1..]| - |t| + i];
        CollapseFacts(t);
        var c := Collapse(t);
        SepThenWord("-", c);
      } else {
        CollapseFacts(s[1..]);
        WordCharIsNotSpace(s[0]);
        var c := Collapse(s[1..]);
        SepThenWord([s[0]], c);
      }
    }
  }

  /** Gluing a character in front of slug characters that do not both start with `-`. */
  lemma SepThenWord(a: string, c: string)
    requires |a| == 1 && (IsWordChar(a[0]) || a[0] == '-') && SlugChars(c)
    requires c != [] && a[0] == '-' ==> c[0] != '-'
    ensures SlugChars(a + c)
  {
    var r := a + c;
    forall i | 0 <= i < |r| ensures IsWordChar(r[i]) || r[i] == '-' {
      if i > 0 { assert r[i] == c[i - 1]; }
    }
    forall i | 0 <= i < |r| - 1 ensures !(r[i] == '-' && r[i + 1] == '-') {
      if i > 0 { assert r[i] == c[i - 1] && r[i + 1] == c[i]; } else { assert r[1] == c[0]; }
    }
  }

  /** Stripping hyphens from the ends keeps the slug characters. */
  lemma {:induction false} StripHyphenKeeps(s: string)
    requires SlugChars(s)
    ensures SlugChars(StripChar(s, '-'))
    decreases |s|
  {
    if |s| > 0 && s[0] == '-' {
      assert SlugChars(s[1..]);
      StripHyphenKeeps(s[1..]);
    } else if |s| > 0 && s[|s| - 1] == '-' {
      assert SlugChars(s[..|s| - 1]);
      StripHyphenKeeps(s[..|s| - 1]);
    }
  }

  /** A prefix of slug characters is slug characters. */
  lemma SlugCharsPrefix(s: string, n: nat)
    requires SlugChars(s) && n <= |s|
    ensures SlugChars(s[..n])
  {
    var p := s[..n];
    forall i | 0 <= i < |p| ensures IsWordChar(p[i]) || p[i] == '-' { assert p[i] == s[i]; }
    forall i | 0 <= i < |p| - 1 ensures !(p[i] == '-' && p[i + 1] == '-') {
      assert p[i] == s[i] && p[i + 1] == s[i + 1];
    }
  }

  /** The slug before the fallback: slug characters, no leading hyphen, at most `maxLen` long. */
  lemma SlugCoreShape(text: string, maxLen: int)
    ensures var core := SlugCore(text, maxLen);
            && SlugChars(core)
            && (core != [] ==> core[0] != '-')
            && (0 <= maxLen ==> |core| <= maxLen)
  {
    var k := KeepSlugChars(text);
    CollapseFacts(k);
    var c := Collapse(k);
    StripHyphenKeeps(c);
    var st := StripChar(c, '-');
    var core := SliceTo(st, maxLen);
    SlugCharsPrefix(st, |core|);
    if core != [] { assert core[0] == st[0]; }
  }

  /** Slug characters hold no whitespace. */
  lemma SlugCharsNoSpace(s: string)
    requires SlugChars(s)
    ensures NoSpace(s)
  {
    forall i | 0 <= i < |s| ensures !IsSpace(s[i]) {
      if IsWordChar(s[i]) { WordCharIsNotSpace(s[i]); }
    }
  }

  /**
   * Every slug is non-empty, made of word characters and single hyphens, has no
   * whitespace and does not start with `-`; unless it is the fallback, it is at most
   * `maxLen` long.
   */
  lemma SlugifyShape(text: string, maxLen: int)
    ensures var r := Slugify(text, maxLen);
            && SlugShaped(r)
            && NoSpace(r)
            && (r == "untitled" || (0 <= maxLen ==> |r| <= maxLen))
  {
    var core := SlugCore(text, maxLen);
    if core == "" {
      UntitledShaped();
      assert Slugify(text, maxLen) == "untitled";
    } else {
      SlugCoreShape(text, maxLen);
      assert Slugify(text, maxLen) == core;
    }
    SlugCharsNoSpace(Slugify(text, maxLen));
  }

  /** The fallback slug has the slug shape. */
  lemma UntitledShaped()
    ensures SlugShaped("untitled")
  {
    assert forall i :: 0 <= i < |"untitled"| ==> 'a' <= "untitled"[i] <= 'z';
  }

  /** A slug-shaped text without a trailing hyphen that fits is its own slug. */
  lemma SlugifyFixesSlugs(s: string, maxLen: int)
    requires SlugShaped(s) && s[|s| - 1] != '-' && |s| <= maxLen
    ensures Slugify(s, maxLen) == s
  {
    KeepAll(s);
    CollapseSingle(s);
    assert StripChar(s, '-') == s;
  }

  /** The slug of the native title "ア・イ" is "アイ". */
  lemma MiddleDotSlug()
    ensures Slugify("ア・イ", 80) == "アイ"
  {
    MiddleDotDropped();
    var t := "アイ";
    assert t[0] == 'ア' && t[1] == 'イ';
    assert SlugShaped(t);
    KeepAll(t);
    SlugifyFixesSlugs(t, 80);
    SameKeptSameSlug("ア・イ", t, 80);
  }

  lemma SameKeptSameSlug(a: string, b: string, maxLen: int)
    requires KeepSlugChars(a) == KeepSlugChars(b)
    ensures Slugify(a, maxLen) == Slugify(b, maxLen)
  {
  }

  lemma {:induction false} KeepAll(s: string)
    requires forall i :: 0 <= i < |s| ==> IsWordChar(s[i]) || s[i] == '-'
    ensures KeepSlugChars(s) == s
    decreases |s|
  {
    if s != [] {
      KeepAll(s[1..]);
    }
  }

  /** Among slug characters the only separator is `-`. */
  lemma SlugCharSep(c: char)
    requires IsWordChar(c) || c == '-'
    ensures IsSep(c) <==> c == '-'
  {
    if IsWordChar(c) {
      WordCharIsNotSpace(c);
    }
  }

  /** A string of word characters and single, non-final hyphens is unchanged by the collapse. */
  lemma {:induction false} CollapseSingle(s: string)
    requires SlugChars(s) && (s == [] || s[|s| - 1] != '-')
    ensures Collapse(s) == s
    decreases |s|
  {
    if s != [] {
      var t := s[1..];
      SlugCharSep(s[0]);
      assert SlugChars(t) by {
        forall i | 0 <= i < |t| ensures IsWordChar(t[i]) || t[i] == '-' { assert t[i] == s[i + 1]; }
        forall i | 0 <= i < |t| - 1 ensures !(t[i] == '-' && t[i + 1] == '-') {
          assert t[i] == s[i + 1] && t[i + 1] == s[i + 2];
        }
      }
      if s[0] == '-' {
        assert |s| > 1 && s[1] != '-';
        SlugCharSep(s[1]);
        assert t[0] == s[1];
        assert SkipSeps(t) == t;
      }
      CollapseSingle(t);
      assert s == [s[0]] + t;
    }
  }

  /** The slug of `main`: the `or f"anime_{i}"` fallback can never be taken. */
  function MainSlug(titleDisplay: string, index: nat): string {
    var s := Slugify(titleDisplay, 80);
    if s != "" then s else "anime_" + NatToString(index)
  }

  lemma MainSlugIsSlugify(titleDisplay: string, index: nat)
    ensures MainSlug(titleDisplay, index) == Slugify(titleDisplay, 80)
  {
  }

  // ================================================================ image extension

  /** Index of the first character of `s` in `cs`, or `|s|` when there is none. */
  function FirstOf(s: string, cs: set<char>): (r: nat)
    ensures r <= |s|
    ensures r < |s| ==> s[r] in cs
    ensures forall i :: 0 <= i < r ==> s[i] !in cs
  {
    if s == [] then 0 else if s[0] in cs then 0 else 1 + FirstOf(s[1..], cs)
  }

  /** Index of the last occurrence of `c` in `s`. */
  function LastOf(s: string, c: char): (r: Option<nat>)
    ensures r.Some? ==> r.value < |s| && s[r.value] == c
    ensures r.Some? ==> forall i :: r.value < i < |s| ==> s[i] != c
    ensures r.None? ==> c !in s
  {
    if s == [] then None
    else if s[|s| - 1] == c then Some(|s| - 1)
    else
      var r := LastOf(s[..|s| - 1], c);
      assert forall i :: 0 <= i < |s| - 1 ==> s[..|s| - 1][i] == s[i];
      r
  }

  /** `s.split(c, 1)[0]`. */
  function Before(s: string, c: char): (r: string)
    ensures r == s[..FirstOf(s, {c})]
  {
    s[..FirstOf(s, {c})]
  }

  predicate IsAsciiAlpha(c: char) { ('a' <= c <= 'z') || ('A' <= c <= 'Z') }

  predicate IsSchemeChar(c: char) { IsAsciiAlpha(c) || ('0' <= c <= '9') || c == '+' || c == '-' || c == '.' }

  /** The schemes for which `urlparse` splits `;params` off the last path segment. */
  const UsesParams: set<string> := {"", "ftp", "hdl", "prospero", "http", "imap", "https", "shttp", "rtsp",
                                    "rtsps", "rtspu", "sip", "sips", "mms", "sftp", "tel"}

  /** `urlsplit`'s scheme step: the lower-cased scheme and the rest of the URL. */
  function SplitScheme(url: string): (string, string) {
    var i := FirstOf(url, {':'});
    if 0 < i < |url| && IsAsciiAlpha(url[0]) && forall k :: 0 <= k < i ==> IsSchemeChar(url[k])
    then (AsciiLower(url[..i]), url[i + 1..])
    else ("", url)
  }

  /** `urlsplit`'s network-location step: what follows a leading `//` authority. */
  function DropNetloc(rest: string): string {
    if |rest| >= 2 && rest[..2] == "//" then
      var tail := rest[2..];
      tail[FirstOf(tail, {'/', '?', '#'})..]
    else rest
  }

  /** `_splitparams`: cut at the first `;` after the last `/`. */
  function CutParams(p: string): string {
    if ';' !in p then p
    else
      var start := match LastOf(p, '/') case Some(j) => j case None => 0;
      var i := FirstOf(p[start..], {';'});
      if start + i < |p| then p[..start + i] else p
  }

  /** The characters `urlsplit` deletes wherever they occur: tab, carriage return and line feed. */
  predicate IsUnsafeUrlChar(c: char) { c == '\t' || c == '\r' || c == '\n' }

  /** `url.lstrip(_WHATWG_C0_CONTROL_OR_SPACE)`: drop the leading controls and spaces, U+0000 to U+0020. */
  function LStripControl(s: string): (r: string)
    ensures |r| <= |s| && r == s[|s| - |r|..]
    ensures r == [] || r[0] > ' '
    ensures forall i :: 0 <= i < |s| - |r| ==> s[i] <= ' '
  {
    if s != [] && s[0] <= ' ' then
      var r := LStripControl(s[1..]);
      assert forall i :: 1 <= i < |s| - |r| ==> s[1..][i - 1] == s[i];
      r
    else s
  }

  /** The loop over `_UNSAFE_URL_BYTES_TO_REMOVE`: every tab, CR and LF is deleted. */
  function RemoveUnsafe(s: string): (r: string)
    ensures |r| <= |s|
  {
    if s == [] then []
    else if IsUnsafeUrlChar(s[0]) then RemoveUnsafe(s[1..])
    else [s[0]] + RemoveUnsafe(s[1..])
  }

  /** The clean-up `urlsplit` does before it splits. */
  function CleanUrl(url: string): string {
    RemoveUnsafe(LStripControl(url))
  }

  lemma {:induction false} RemoveUnsafeAppend(a: string, b: string)
    ensures RemoveUnsafe(a + b) == RemoveUnsafe(a) + RemoveUnsafe(b)
    decreases |a|
  {
    if a == [] {
      assert a + b == b;
    } else {
      assert (a + b)[0] == a[0] && (a + b)[1..] == a[1..] + b;
      RemoveUnsafeAppend(a[1..], b);
    }
  }

  /** Every character but tab, CR and LF is kept, and nothing else appears. */
  lemma {:induction false} RemoveUnsafeKeeps(s: string)
    ensures forall c :: c in RemoveUnsafe(s) <==> c in s && !IsUnsafeUrlChar(c)
    decreases |s|
  {
    if s != [] {
      RemoveUnsafeKeeps(s[1..]);
      assert s == [s[0]] + s[1..];
    }
  }

  /** Text without tab, CR or LF is left whole. */
  lemma {:induction false} RemoveUnsafeNone(s: string)
    requires forall i :: 0 <= i < |s| ==> !IsUnsafeUrlChar(s[i])
    ensures RemoveUnsafe(s) == s
    decreases |s|
  {
    if s != [] {
      RemoveUnsafeNone(s[1..]);
      assert s == [s[0]] + s[1..];
    }
  }

  /** `urllib.parse.urlparse(url).path`. */
  function UrlPath(url: string): string {
    PathOfClean(CleanUrl(url))
  }

  /** The path of a cleaned-up URL: the scheme, netloc, fragment, query and parameter steps. */
  function PathOfClean(url: string): string {
    var (scheme, rest) := SplitScheme(url);
    var p := Before(Before(DropNetloc(rest), '#'), '?');
    if scheme in UsesParams then CutParams(p) else p
  }

  /** The components `PurePosixPath` keeps: non-empty and not `.`. */
  function Components(parts: seq<string>): (r: seq<string>)
    ensures forall x :: x in r ==> x in parts && x != "" && x != "."
  {
    if parts == [] then []
    else if parts[0] == "" || parts[0] == "." then Components(parts[1..])
    else [parts[0]] + Components(parts[1..])
  }

  /** `Path(path).name`. */
  function PathName(path: string): string {
    var cs := Components(Split(path, '/'));
    if cs == [] then "" else cs[|cs| - 1]
  }

  /** `PurePath.suffix`: from the last dot, unless it is the first or the last character. */
  function Suffix(name: string): (r: string)
    ensures r == [] || (r[0] == '.' && |r| >= 2 && '.' !in r[1..])
  {
    match LastOf(name, '.')
    case Some(i) =>
      if 0 < i < |name| - 1 then
        name[i..]
      else ""
    case None => ""
  }

  const ImageExtensions: seq<string> := [".jpg", ".jpeg", ".png", ".webp", ".gif"]

  /** `get_image_extension(url)`. */
  function ImageExtension(url: string): (r: string)
    ensures r in ImageExtensions
    ensures AsciiLower(Suffix(PathName(UrlPath(url)))) in ImageExtensions
            ==> r == AsciiLower(Suffix(PathName(UrlPath(url))))
    ensures AsciiLower(Suffix(PathName(UrlPath(url)))) !in ImageExtensions ==> r == ".jpg"
  {
    var ext := AsciiLower(Suffix(PathName(UrlPath(url))));
    if ext in ImageExtensions then ext else ".jpg"
  }

  lemma {:induction false} FirstOfAfter(a: string, b: string, cs: set<char>)
    requires forall i :: 0 <= i < |a| ==> a[i] !in cs
    ensures FirstOf(a + b, cs) == |a| + FirstOf(b, cs)
    decreases |a|
  {
    if a != [] {
      assert (a + b)[1..] == a[1..] + b;
      FirstOfAfter(a[1..], b, cs);
    } else {
      assert a + b == b;
    }
  }

  lemma FirstOfNone(s: string, cs: set<char>)
    requires forall i :: 0 <= i < |s| ==> s[i] !in cs
    ensures FirstOf(s, cs) == |s|
  {
    FirstOfAfter(s, [], cs);
    assert s + [] == s;
  }

  predicate ExtShape(e: string) {
    |e| >= 4 && e[0] == '.' && forall i :: 1 <= i < |e| ==> 'a' <= e[i] <= 'z'
  }

  lemma ImageExtensionsShape()
    ensures forall e :: e in ImageExtensions ==> ExtShape(e)
  {
    assert ExtShape(".jpg") && ExtShape(".jpeg") && ExtShape(".png") && ExtShape(".webp") && ExtShape(".gif");
  }

  lemma LowerToLetter(c: char)
    requires 'a' <= LowerChar(c) <= 'z'
    ensures IsAsciiAlpha(c)
  {
  }

  lemma LowerDot(c: char)
    requires LowerChar(c) == '.'
    ensures c == '.'
  {
  }

  lemma LetterAt(ext: string, i: nat)
    requires 1 <= i < |ext| && ExtShape(AsciiLower(ext))
    ensures IsAsciiAlpha(ext[i])
  {
    assert 'a' <= AsciiLower(ext)[i] <= 'z';
    LowerToLetter(ext[i]);
  }

  /** Characters of an extension that lower-cases to one of the image extensions. */
  lemma ExtensionChars(ext: string)
    requires AsciiLower(ext) in ImageExtensions
    ensures |ext| >= 4 && ext[0] == '.'
    ensures forall i :: 1 <= i < |ext| ==> IsAsciiAlpha(ext[i])
  {
    ImageExtensionsShape();
    var l := AsciiLower(ext);
    assert ExtShape(l);
    assert l[0] == LowerChar(ext[0]);
    LowerDot(ext[0]);
    forall i | 1 <= i < |ext| ensures IsAsciiAlpha(ext[i]) {
      LetterAt(ext, i);
    }
  }

  /** The scheme step on an `https:` URL. */
  lemma HttpsScheme(rest: string)
    ensures SplitScheme("https:" + rest) == ("https", rest)
  {
    var url := "https:" + rest;
    FirstOfAfter("https", ":" + rest, {':'});
    assert url == "https" + (":" + rest);
    assert url[..5] == "https" && url[6..] == rest;
    assert forall k :: 0 <= k < 5 ==> IsSchemeChar(url[k]);
    LowerHttps();
  }

  lemma LowerHttps()
    ensures AsciiLower("https") == "https"
  {
    assert AsciiLower("s") == "s";
    assert AsciiLower("ps") == "ps";
    assert AsciiLower("tps") == "tps";
    assert AsciiLower("ttps") == "ttps";
  }

  /** The network-location step drops the host in front of the path. */
  lemma HostDropped(host: string, path: string)
    requires forall i :: 0 <= i < |host| ==> host[i] !in {'/', '?', '#'}
    requires path != [] && path[0] == '/'
    ensures DropNetloc("//" + host + path) == path
  {
    var rest := "//" + host + path;
    assert rest[..2] == "//" && rest[2..] == host + path;
    FirstOfAfter(host, path, {'/', '?', '#'});
    assert (host + path)[|host|..] == path;
  }

  /** A path without `#`, `?` or `;` is left whole by the fragment, query and parameter steps. */
  lemma PlainPath(path: string)
    requires forall i :: 0 <= i < |path| ==> path[i] !in {'#', '?', ';'}
    ensures CutParams(Before(Before(path, '#'), '?')) == path
  {
    FirstOfNone(path, {'#'});
    FirstOfNone(path, {'?'});
  }

  /** The name of `/name` is `name`. */
  lemma NameOfRootFile(name: string)
    requires '/' !in name && name != "" && name != "."
    ensures PathName("/" + name) == name
  {
    SplitAt("", '/', name);
    SplitNoSep(name, '/');
    assert [] + ['/'] + name == "/" + name;
    assert [name][1..] == [];
    assert Components([name]) == [name] + Components([]);
    assert ["", name][1..] == [name];
    assert Components(["", name]) == Components([name]);
  }

  lemma UrlShape(host: string, stem: string, ext: string)
    ensures "https://" + host + "/" + stem + ext == "https:" + ("//" + host + ("/" + (stem + ext)))
  {
    assert "https://" == "https:" + "//";
    Assoc("https:", "//", host);
    Assoc("https:" + "//" + host, "/", stem);
    Assoc("https:" + "//" + host + "/" , stem, ext);
    Assoc("https:" + "//" + host, "/", stem + ext);
    Assoc("https:", "//" + host, "/" + (stem + ext));
    Assoc("//", host, "/" + (stem + ext));
  }

  lemma Assoc(a: string, b: string, c: string)
    ensures a + b + c == a + (b + c)
  {
  }

  /** A file name made of a plain stem and an image extension holds none of `/ ? # ;`. */
  lemma NameChars(stem: string, ext: string)
    requires PlainName(stem)
    requires |ext| >= 1 && ext[0] == '.' && forall i :: 1 <= i < |ext| ==> IsAsciiAlpha(ext[i])
    ensures PlainName(stem + ext)
  {
    var name := stem + ext;
    forall i | 0 <= i < |name| ensures name[i] !in {'/', '?', '#', ';', '\t', '\r', '\n'} {
      if i < |stem| { assert name[i] == stem[i]; } else { assert name[i] == ext[i - |stem|]; }
    }
  }

  /**
   * A host on which `urlsplit` does not raise and which the clean-up leaves alone: ASCII,
   * no brackets, no tab, CR or LF, and none of the characters that end the netloc.
   */
  predicate PlainHost(host: string) {
    forall i :: 0 <= i < |host| ==> host[i] < '\U{80}' && host[i] !in {'/', '?', '#', '[', ']', '\t', '\r', '\n'}
  }

  /** A file name kept whole by the clean-up, the query, fragment and parameter steps and the path split. */
  predicate PlainName(name: string) {
    forall i :: 0 <= i < |name| ==> name[i] !in {'/', '?', '#', ';', '\t', '\r', '\n'}
  }

  predicate NoUnsafe(s: string) { forall i :: 0 <= i < |s| ==> !IsUnsafeUrlChar(s[i]) }

  lemma NoUnsafeAppend(a: string, b: string)
    requires NoUnsafe(a) && NoUnsafe(b)
    ensures NoUnsafe(a + b)
  {
    forall i | 0 <= i < |a + b| ensures !IsUnsafeUrlChar((a + b)[i]) {
      if i < |a| { assert (a + b)[i] == a[i]; } else { assert (a + b)[i] == b[i - |a|]; }
    }
  }

  lemma VisibleStart(s: string)
    requires s != [] && s[0] > ' '
    ensures LStripControl(s) == s
  {
  }

  /** The clean-up leaves `https://host/name` as it is. */
  lemma CleanFileUrl(host: string, name: string)
    requires PlainHost(host) && PlainName(name)
    ensures CleanUrl("https:" + ("//" + host + ("/" + name))) == "https:" + ("//" + host + ("/" + name))
  {
    assert NoUnsafe(host) by {
      forall i | 0 <= i < |host| ensures !IsUnsafeUrlChar(host[i]) { }
    }
    assert NoUnsafe(name) by {
      forall i | 0 <= i < |name| ensures !IsUnsafeUrlChar(name[i]) { }
    }
    assert NoUnsafe("https:") && NoUnsafe("//") && NoUnsafe("/");
    NoUnsafeAppend("//", host);
    NoUnsafeAppend("/", name);
    NoUnsafeAppend("//" + host, "/" + name);
    NoUnsafeAppend("https:", "//" + host + ("/" + name));
    var url := "https:" + ("//" + host + ("/" + name));
    assert url[0] == 'h';
    VisibleStart(url);
    RemoveUnsafeNone(url);
  }

  /** The path of `https://host/name` is `/name`. */
  lemma FileUrlPath(host: string, name: string)
    requires PlainHost(host) && PlainName(name)
    ensures UrlPath("https:" + ("//" + host + ("/" + name))) == "/" + name
  {
    var path := "/" + name;
    CleanFileUrl(host, name);
    PlainFileUrlPath(host, name);
  }

  lemma PlainFileUrlPath(host: string, name: string)
    requires PlainHost(host) && PlainName(name)
    ensures PathOfClean("https:" + ("//" + host + ("/" + name))) == "/" + name
  {
    var path := "/" + name;
    HttpsScheme("//" + host + path);
    assert forall i :: 0 <= i < |host| ==> host[i] !in {'/', '?', '#'};
    HostDropped(host, path);
    assert forall i :: 0 <= i < |path| ==> path[i] !in {'#', '?', ';'} by {
      forall i | 0 <= i < |path| ensures path[i] !in {'#', '?', ';'} {
        if i > 0 { assert path[i] == name[i - 1]; }
      }
    }
    PlainPath(path);
  }

  /**
   * The extension of a file URL `https://host/stem.ext` is its own extension, lower-cased,
   * when that is one of the five image extensions: `.PNG` gives `.png`.
   */
  lemma ExtensionOfFileUrl(host: string, stem: string, ext: string)
    requires PlainHost(host)
    requires stem != [] && PlainName(stem)
    requires AsciiLower(ext) in ImageExtensions
    ensures ImageExtension("https://" + host + "/" + stem + ext) == AsciiLower(ext)
  {
    ExtensionChars(ext);
    NameChars(stem, ext);
    UrlShape(host, stem, ext);
    NameOfFileUrl(host, stem + ext);
    SuffixOfExt(stem, ext);
  }

  /** The file name of `https://host/name` is `name`. */
  lemma NameOfFileUrl(host: string, name: string)
    requires PlainHost(host)
    requires |name| >= 2 && PlainName(name)
    ensures PathName(UrlPath("https:" + ("//" + host + ("/" + name)))) == name
  {
    FileUrlPath(host, name);
    assert '/' !in name by {
      forall i | 0 <= i < |name| ensures name[i] != '/' { }
    }
    NameOfRootFile(name);
  }

  /** `urlsplit` deletes a line feed inside the URL: "https://h/a.pn\ng" ends in ".png". */
  lemma NewlineDeleted()
    ensures ImageExtension("https://h/a.pn\ng") == ".png"
  {
    NewlineCleaned();
    PngUrlClean();
    SameCleanSameExtension("https://h/a.pn\ng", "https://h/a.png");
    ImageOfPng();
  }

  /** URLs that are the same after the clean-up get the same extension. */
  lemma SameCleanSameExtension(u: string, v: string)
    requires CleanUrl(u) == CleanUrl(v)
    ensures ImageExtension(u) == ImageExtension(v)
  {
    assert UrlPath(u) == UrlPath(v);
  }

  lemma PngUrlClean()
    ensures CleanUrl("https://h/a.png") == "https://h/a.png"
  {
    assert "https://h/a.png" == "https:" + ("//" + "h" + ("/" + "a.png"));
    assert PlainHost("h");
    assert PlainName("a.png");
    CleanFileUrl("h", "a.png");
  }

  lemma NewlineCleaned()
    ensures CleanUrl("https://h/a.pn\ng") == "https://h/a.png"
  {
    VisibleStart("https://h/a.pn\ng");
    assert "https://h/a.pn\ng" == "https://h/a.pn" + "\n" + "g";
    NewlineRemoved();
  }

  lemma NewlineRemoved()
    ensures RemoveUnsafe("https://h/a.pn" + "\n" + "g") == "https://h/a.png"
  {
    RemoveUnsafeAppend("https://h/a.pn" + "\n", "g");
    RemoveUnsafeAppend("https://h/a.pn", "\n");
    RemoveUnsafeNone("https://h/a.pn");
    RemoveUnsafeNone("g");
    assert RemoveUnsafe("\n") == [];
  }

  lemma ImageOfPng()
    ensures ImageExtension("https://h/a.png") == ".png"
  {
    assert AsciiLower(".png") == ".png";
    assert "https://h/a.png" == "https://" + "h" + "/" + "a" + ".png";
    ExtensionOfFileUrl("h", "a", ".png");
  }

  /** A non-empty stem followed by a dotted extension without further dots has that suffix. */
  lemma SuffixOfExt(stem: string, ext: string)
    requires stem != [] && |ext| >= 2 && ext[0] == '.' && forall i :: 1 <= i < |ext| ==> IsAsciiAlpha(ext[i])
    ensures Suffix(stem + ext) == ext
  {
    LastOfExt(stem, ext);
    assert (stem + ext)[|stem|..] == ext;
  }

  lemma {:induction false} LastOfExt(stem: string, ext: string)
    requires |ext| >= 2 && ext[0] == '.' && forall i :: 1 <= i < |ext| ==> ext[i] != '.'
    ensures LastOf(stem + ext, '.') == Some(|stem|)
    decreases |ext|
  {
    var name := stem + ext;
    if |ext| == 1 {
    } else {
      assert name[..|name| - 1] == stem + ext[..|ext| - 1];
      if |ext| > 2 {
        LastOfExt(stem, ext[..|ext| - 1]);
      } else {
        assert ext[..1] == ".";
        LastOfDot(stem);
      }
    }
  }

  lemma LastOfDot(stem: string)
    ensures LastOf(stem + ".", '.') == Some(|stem|)
  {
  }

  // ================================================================ LLM fallback

  const RateLimitKeywords: seq<string> := ["rate_limit", "rate limit", "429", "too many requests", "overloaded"]

  /** `_is_rate_limit_error`: the lower-cased message holds one of the five keywords. */
  predicate IsRateLimitError(msg: string) {
    exists k :: 0 <= k < |RateLimitKeywords| && Contains(AsciiLower(msg), RateLimitKeywords[k])
  }

  /** Lower-casing distributes over concatenation. */
  lemma {:induction false} LowerConcat(a: string, b: string)
    ensures AsciiLower(a + b) == AsciiLower(a) + AsciiLower(b)
  {
    var l := AsciiLower(a + b);
    var r := AsciiLower(a) + AsciiLower(b);
    assert |l| == |r|;
    forall i | 0 <= i < |l| ensures l[i] == r[i] {
      if i < |a| {
        assert (a + b)[i] == a[i];
        assert r[i] == AsciiLower(a)[i];
      } else {
        assert (a + b)[i] == b[i - |a|];
        assert r[i] == AsciiLower(b)[i - |a|];
      }
    }
  }

  lemma ContainsExtend(pre: string, s: string, post: string, sub: string)
    requires Contains(s, sub)
    ensures Contains(pre + s + post, sub)
  {
    var i :| 0 <= i <= |s| - |sub| && sub <= s[i..];
    var t := pre + s + post;
    assert t[|pre| + i..|pre| + i + |sub|] == s[i..i + |sub|];
    ContainsAt(t, sub, |pre| + i);
  }

  /** A rate-limit error stays one whatever text surrounds it. */
  lemma RateLimitInContext(pre: string, msg: string, post: string)
    requires IsRateLimitError(msg)
    ensures IsRateLimitError(pre + msg + post)
  {
    var k :| 0 <= k < |RateLimitKeywords| && Contains(AsciiLower(msg), RateLimitKeywords[k]);
    LowerConcat(pre, msg);
    LowerConcat(pre + msg, post);
    ContainsExtend(AsciiLower(pre), AsciiLower(msg), AsciiLower(post), RateLimitKeywords[k]);
  }

  lemma LowerIdentity(s: string)
    requires forall i :: 0 <= i < |s| ==> !('A' <= s[i] <= 'Z')
    ensures AsciiLower(s) == s
  {
  }

  lemma KeywordsAreLower()
    ensures forall k, i :: 0 <= k < |RateLimitKeywords| && 0 <= i < |RateLimitKeywords[k]|
                           ==> !('A' <= RateLimitKeywords[k][i] <= 'Z')
  {
  }

  /** Each keyword on its own is a rate-limit error. */
  lemma KeywordAlone(k: nat)
    requires k < |RateLimitKeywords|
    ensures IsRateLimitError(RateLimitKeywords[k])
  {
    var kw := RateLimitKeywords[k];
    KeywordsAreLower();
    LowerIdentity(kw);
    ContainsAt(kw, kw, 0);
  }

  /** Any message holding one of the keywords, as written, is a rate-limit error. */
  lemma KeywordIsRateLimit(pre: string, k: nat, post: string)
    requires k < |RateLimitKeywords|
    ensures IsRateLimitError(pre + RateLimitKeywords[k] + post)
  {
    KeywordAlone(k);
    RateLimitInContext(pre, RateLimitKeywords[k], post);
  }

  /** What the Claude call did: returned a text block, another block type, or raised. */
  datatype ClaudeReply = ClaudeText(text: string) | ClaudeOtherBlock(blockType: string) | ClaudeRaised(message: string)

  /** What the Gemini call did; a missing `GOOGLE_API_KEY` is `GeminiNoKey`. */
  datatype GeminiReply = GeminiText(text: string) | GeminiNoKey | GeminiRaised(message: string)

  datatype Provider = Claude | Gemini

  /** The providers called, in order, and the text returned or the message raised. */
  datatype LlmOutcome = LlmOutcome(called: seq<Provider>, result: Result<string, string>)

  const GeminiKeyMissing := "GOOGLE_API_KEY 환경변수가 없습니다. .env에 추가하거나 Google AI Studio에서 발급하세요.\n발급: https://aistudio.google.com/apikey"

  function CallGemini(reply: GeminiReply): Result<string, string> {
    match reply
    case GeminiText(t) => Ok(t)
    case GeminiNoKey => Err(GeminiKeyMissing)
    case GeminiRaised(m) => Err("Gemini API 호출 실패: " + m)
  }

  /** The message of the exception `_call_llm` catches from the Claude block. */
  function ClaudeErrorMessage(reply: ClaudeReply): string
    requires !reply.ClaudeText?
  {
    match reply
    case ClaudeOtherBlock(t) => "Claude API 비텍스트 응답: " + t
    case ClaudeRaised(m) => m
  }

  /** `_call_llm`: Claude first when a key is set, Gemini on a missing key or a rate limit. */
  function CallLlm(hasAnthropicKey: bool, claude: ClaudeReply, gemini: GeminiReply): LlmOutcome {
    if !hasAnthropicKey then LlmOutcome([Gemini], CallGemini(gemini))
    else match claude
      case ClaudeText(t) => LlmOutcome([Claude], Ok(t))
      case _ =>
        var m := ClaudeErrorMessage(claude);
        if IsRateLimitError(m) then LlmOutcome([Claude, Gemini], CallGemini(gemini))
        else LlmOutcome([Claude], Err("Claude API 호출 실패: " + m))
  }

  /**
   * Gemini is called exactly when there is no Anthropic key or Claude failed with a
   * rate-limit error; a Claude text is returned as is; any other Claude failure is
   * raised, wrapped, without calling Gemini.
   */
  lemma CallLlmFallback(hasAnthropicKey: bool, claude: ClaudeReply, gemini: GeminiReply)
    ensures var o := CallLlm(hasAnthropicKey, claude, gemini);
            && (Gemini in o.called <==> !hasAnthropicKey || (!claude.ClaudeText? && IsRateLimitError(ClaudeErrorMessage(claude))))
            && (Claude in o.called <==> hasAnthropicKey)
            && (hasAnthropicKey && claude.ClaudeText? ==> o.result == Ok(claude.text))
            && (Gemini in o.called ==> o.result == CallGemini(gemini))
            && (hasAnthropicKey && !claude.ClaudeText? && !IsRateLimitError(ClaudeErrorMessage(claude))
                ==> o.result.Err? && StartsWith(o.result.error, "Claude API 호출 실패: "))
  {
  }

  // ================================================================ image slots

  const TmdbImageBase := "https://image.tmdb.org/t/p/w780"

  function Lookup(m: map<string, string>, k: string, default: string): string {
    if k in m then m[k] else default
  }

  function Truthy(s: Option<string>): bool { s.Some? && s.value != "" }

  function ImagePath(slug: string, slot: string, ext: string): string { "../images/" + slug + "_" + slot + ext }

  /** The cover and poster slots of `collect_images`. */
  method CoverAndPoster(coverUrl: Option<string>, posters: seq<string>, slug: string, downloads: set<string>)
    returns (paths: map<string, string>)
    ensures paths.Keys <= {"cover", "poster"}
    ensures "cover" in paths <==> Truthy(coverUrl) && coverUrl.value in downloads
    ensures "cover" in paths ==> paths["cover"] == ImagePath(slug, "cover", ImageExtension(coverUrl.value))
    ensures |posters| > 0 ==> ("poster" in paths <==> TmdbImageBase + posters[0] in downloads)
    ensures |posters| > 0 && "poster" in paths ==> paths["poster"] == ImagePath(slug, "poster", ".jpg")
    ensures |posters| == 0 && Truthy(coverUrl) ==> "poster" in paths && paths["poster"] == Lookup(paths, "cover", "")
    ensures |posters| == 0 && !Truthy(coverUrl) ==> "poster" !in paths
  {
    paths := map[];
    if Truthy(coverUrl) {
      var ext := ImageExtension(coverUrl.value);
      if coverUrl.value in downloads {
        paths := paths["cover" := ImagePath(slug, "cover", ext)];
      }
    }
    if |posters| > 0 {
      if TmdbImageBase + posters[0] in downloads {
        paths := paths["poster" := ImagePath(slug, "poster", ".jpg")];
      }
    } else if Truthy(coverUrl) {
      paths := paths["poster" := Lookup(paths, "cover", "")];
    }
  }

  /** The three still slots of `collect_images`, added to the cover and poster slots. */
  method AddStills(slots: map<string, string>, backdrops: seq<string>, posters: seq<string>, slug: string,
                   downloads: set<string>)
    returns (paths: map<string, string>)
    requires slots.Keys <= {"cover", "poster"}
    ensures paths.Keys <= {"cover", "poster", "still1", "still2", "still3"}
    ensures forall k :: k in slots ==> k in paths && paths[k] == slots[k]
    ensures "cover" !in slots ==> "cover" !in paths
    ensures "poster" !in slots ==> "poster" !in paths
    ensures |backdrops| >= 1 ==> ("still1" in paths <==> TmdbImageBase + backdrops[0] in downloads)
    ensures |backdrops| == 0 ==> "still1" !in paths
    ensures "still1" in paths ==> paths["still1"] == ImagePath(slug, "still1", ".jpg")
    ensures |backdrops| >= 2 ==> ("still2" in paths <==> TmdbImageBase + backdrops[1] in downloads)
    ensures |backdrops| >= 2 && "still2" in paths ==> paths["still2"] == ImagePath(slug, "still2", ".jpg")
    ensures |backdrops| == 1 ==> "still2" in paths && paths["still2"] == Lookup(paths, "still1", "")
    ensures |backdrops| == 0 ==> "still2" !in paths
    ensures |backdrops| >= 3 ==> ("still3" in paths <==> TmdbImageBase + backdrops[2] in downloads)
    ensures |backdrops| >= 3 && "still3" in paths ==> paths["still3"] == ImagePath(slug, "still3", ".jpg")
    ensures |backdrops| < 3 && |posters| >= 2 ==> ("still3" in paths <==> TmdbImageBase + posters[1] in downloads)
    ensures |backdrops| < 3 && |posters| >= 2 && "still3" in paths ==> paths["still3"] == ImagePath(slug, "poster2", ".jpg")
    ensures |backdrops| < 3 && |posters| < 2
            ==> "still3" in paths && paths["still3"] == Lookup(slots, "poster", Lookup(slots, "cover", ""))
  {
    paths := slots;
    if |backdrops| >= 1 {
      if TmdbImageBase + backdrops[0] in downloads {
        paths := paths["still1" := ImagePath(slug, "still1", ".jpg")];
      }
    }
    if |backdrops| >= 2 {
      if TmdbImageBase + backdrops[1] in downloads {
        paths := paths["still2" := ImagePath(slug, "still2", ".jpg")];
      }
    } else if |backdrops| == 1 {
      paths := paths["still2" := Lookup(paths, "still1", "")];
    }
    if |backdrops| >= 3 {
      if TmdbImageBase + backdrops[2] in downloads {
        paths := paths["still3" := ImagePath(slug, "still3", ".jpg")];
      }
    } else if |posters| >= 2 {
      if TmdbImageBase + posters[1] in downloads {
        paths := paths["still3" := ImagePath(slug, "poster2", ".jpg")];
      }
    } else {
      paths := paths["still3" := Lookup(paths, "poster", Lookup(paths, "cover", ""))];
    }
  }

  /**
   * `collect_images`. `coverUrl` is the anime's `cover_image_url` (absent or null both
   * read as `None`); `downloads` is the set of URLs whose download succeeds.
   */
  method CollectImages(coverUrl: Option<string>, backdrops: seq<string>, posters: seq<string>, slug: string,
                       downloads: set<string>)
    returns (paths: map<string, string>)
    ensures paths.Keys <= {"cover", "poster", "still1", "still2", "still3"}
    ensures "cover" in paths <==> Truthy(coverUrl) && coverUrl.value in downloads
    ensures "cover" in paths ==> paths["cover"] == ImagePath(slug, "cover", ImageExtension(coverUrl.value))
    ensures |posters| > 0 ==> ("poster" in paths <==> TmdbImageBase + posters[0] in downloads)
    ensures |posters| > 0 && "poster" in paths ==> paths["poster"] == ImagePath(slug, "poster", ".jpg")
    ensures |posters| == 0 && Truthy(coverUrl) ==> "poster" in paths && paths["poster"] == Lookup(paths, "cover", "")
    ensures |posters| == 0 && !Truthy(coverUrl) ==> "poster" !in paths
    ensures |backdrops| >= 1 ==> ("still1" in paths <==> TmdbImageBase + backdrops[0] in downloads)
    ensures |backdrops| == 0 ==> "still1" !in paths
    ensures "still1" in paths ==> paths["still1"] == ImagePath(slug, "still1", ".jpg")
    ensures |backdrops| >= 2 ==> ("still2" in paths <==> TmdbImageBase + backdrops[1] in downloads)
    ensures |backdrops| >= 2 && "still2" in paths ==> paths["still2"] == ImagePath(slug, "still2", ".jpg")
    ensures |backdrops| == 1 ==> "still2" in paths && paths["still2"] == Lookup(paths, "still1", "")
    ensures |backdrops| == 0 ==> "still2" !in paths
    ensures |backdrops| >= 3 ==> ("still3" in paths <==> TmdbImageBase + backdrops[2] in downloads)
    ensures |backdrops| >= 3 && "still3" in paths ==> paths["still3"] == ImagePath(slug, "still3", ".jpg")
    ensures |backdrops| < 3 && |posters| >= 2 ==> ("still3" in paths <==> TmdbImageBase + posters[1] in downloads)
    ensures |backdrops| < 3 && |posters| >= 2 && "still3" in paths ==> paths["still3"] == ImagePath(slug, "poster2", ".jpg")
    ensures |backdrops| < 3 && |posters| < 2
            ==> "still3" in paths && paths["still3"] == Lookup(paths, "poster", Lookup(paths, "cover", ""))
  {
    var slots := CoverAndPoster(coverUrl, posters, slug, downloads);
    paths := AddStills(slots, backdrops, posters, slug, downloads);
    assert Lookup(paths, "cover", "") == Lookup(slots, "cover", "");
    assert Lookup(paths, "poster", Lookup(paths, "cover", "")) == Lookup(slots, "poster", Lookup(slots, "cover", ""));
  }

  // ================================================================ labels and titles

  /** `SEASON_KR.get(season, season)`. */
  function SeasonKr(season: string): string {
    if season == "WINTER" then "겨울"
    else if season == "SPRING" then "봄"
    else if season == "SUMMER" then "여름"
    else if season == "FALL" then "가을"
    else season
  }

  /**
   * The season label of `load_anime_list`: `season` and `year` are the JSON fields,
   * `None` when the key is missing.
   */
  function SeasonLabel(season: Option<string>, year: Option<int>): string {
    IntToString(year.GetOr(2026)) + " " + SeasonKr(season.GetOr("WINTER"))
  }

  /** Without either field the label is the winter 2026 label. */
  lemma SeasonLabelDefaults()
    ensures SeasonLabel(None, None) == IntToString(2026) + " 겨울"
  {
  }

  /** An unknown season name is kept as it is; a known one is translated. */
  lemma SeasonLabelUnknown(season: string, year: int)
    requires season !in {"WINTER", "SPRING", "SUMMER", "FALL"}
    ensures SeasonLabel(Some(season), Some(year)) == IntToString(year) + " " + season
  {
  }

  /** The first of Korean, English and native title that is neither missing nor empty. */
  function TitleOr(korean: Option<string>, english: Option<string>, native: Option<string>, fallback: string): (r: string)
    ensures Truthy(korean) ==> r == korean.value
    ensures !Truthy(korean) && Truthy(english) ==> r == english.value
    ensures !Truthy(korean) && !Truthy(english) && Truthy(native) ==> r == native.value
    ensures !Truthy(korean) && !Truthy(english) && !Truthy(native) ==> r == fallback
  {
    if Truthy(korean) then korean.value
    else if Truthy(english) then english.value
    else if Truthy(native) then native.value
    else fallback
  }

  /** The title shown in a draft (`generate_blog_draft`). */
  function DraftTitle(korean: Option<string>, english: Option<string>, native: Option<string>): string {
    TitleOr(korean, english, native, "제목 없음")
  }

  /** The title used for the slug and the progress line of `main`. */
  function MainTitle(korean: Option<string>, english: Option<string>, native: Option<string>): string {
    TitleOr(korean, english, native, "제목없음")
  }

  /** The two chains agree except when every title is missing, where the fallbacks differ. */
  lemma TitleChainsDiffer(korean: Option<string>, english: Option<string>, native: Option<string>)
    ensures DraftTitle(korean, english, native) == MainTitle(korean, english, native)
            <==> Truthy(korean) || Truthy(english) || Truthy(native)
  {
    assert "제목 없음" != "제목없음" by { assert |"제목 없음"| != |"제목없음"|; }
  }

  /** The result is never empty. */
  lemma TitleNeverEmpty(korean: Option<string>, english: Option<string>, native: Option<string>)
    ensures DraftTitle(korean, english, native) != "" && MainTitle(korean, english, native) != ""
  {
  }

  // ================================================================ revise mode

  datatype ReviseStep = ExitWith(code: int) | CallRevise

  /** The argument checks of `run_revise_mode`, before any LLM call. */
  function ReviseCheck(fileExists: bool, instruction: string): ReviseStep {
    if !fileExists then ExitWith(1)
    else if Strip(instruction) == "" then ExitWith(1)
    else CallRevise
  }

  /** The revise mode stops with code 1 exactly when the file is missing or the instruction is all whitespace. */
  lemma ReviseRejects(fileExists: bool, instruction: string)
    ensures ReviseCheck(fileExists, instruction).ExitWith? <==> !fileExists || forall i :: 0 <= i < |instruction| ==> IsSpace(instruction[i])
    ensures ReviseCheck(fileExists, instruction).ExitWith? ==> ReviseCheck(fileExists, instruction).code == 1
  {
    StripAllSpace(instruction);
  }
}
