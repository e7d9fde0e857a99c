/**
 * The AniList/MAL collector (`fetch_anime.py`): the season of a month, the Korean
 * title found among the synonyms, the normalisation of AniList media into records,
 * the guards of the MAL lookup and the merge of MAL data into the records. HTTP
 * replies and the clock are passed in as values.
 */
module FetchAnime {
  import opened Wrappers
  import opened Text

  // ================================================================ season

  datatype Season = Winter | Spring | Summer | Fall

  function SeasonName(s: Season): string {
    match s
    case Winter => "WINTER"
    case Spring => "SPRING"
    case Summer => "SUMMER"
    case Fall => "FALL"
  }

  /** `get_current_season` for the current `month` (1 to 12) and `year`. */
  function CurrentSeason(month: int, year: int): (r: (Season, int))
    requires 1 <= month <= 12
  {
    if month == 12 || month == 1 || month == 2 then (Winter, if month == 12 then year + 1 else year)
    else if 3 <= month <= 5 then (Spring, year)
    else if 6 <= month <= 8 then (Summer, year)
    else (Fall, year)
  }

  /** The month table: December to February is winter, then three months per season. */
  lemma SeasonTable(month: int, year: int)
    requires 1 <= month <= 12
    ensures CurrentSeason(month, year).0 == Winter <==> month in {12, 1, 2}
    ensures CurrentSeason(month, year).0 == Spring <==> 3 <= month <= 5
    ensures CurrentSeason(month, year).0 == Summer <==> 6 <= month <= 8
    ensures CurrentSeason(month, year).0 == Fall <==> 9 <= month <= 11
  {
  }

  /** The year moves on only in December, to the winter that starts then. */
  lemma SeasonYear(month: int, year: int)
    requires 1 <= month <= 12
    ensures CurrentSeason(month, year).1 == if month == 12 then year + 1 else year
  {
  }

  /** Consecutive months of one season give the same season and year, across New Year too. */
  lemma DecemberJoinsNextWinter(year: int)
    ensures CurrentSeason(12, year) == CurrentSeason(1, year + 1)
    ensures CurrentSeason(12, year) == CurrentSeason(2, year + 1)
  {
  }

  // ================================================================ Korean title

  /** `hangul.search(s)` for the pattern `[가-힣]+`. */
  predicate HasHangul(s: string) { exists i :: 0 <= i < |s| && IsHangul(s[i]) }

  /** The synonym loop: the first synonym holding Hangul, stripped. */
  function FirstKorean(synonyms: seq<string>): Option<string> {
    if synonyms == [] then None
    else if synonyms[0] != "" && HasHangul(synonyms[0]) then Some(Strip(synonyms[0]))
    else FirstKorean(synonyms[1..])
  }

  /** A title is found exactly when some synonym holds Hangul, and it is the first such one. */
  lemma {:induction false} FirstKoreanFinds(synonyms: seq<string>)
    ensures FirstKorean(synonyms).Some? <==> exists k :: 0 <= k < |synonyms| && HasHangul(synonyms[k])
    ensures FirstKorean(synonyms).Some? ==>
              exists k :: 0 <= k < |synonyms| && HasHangul(synonyms[k]) && FirstKorean(synonyms).value == Strip(synonyms[k])
                          && forall j :: 0 <= j < k ==> !HasHangul(synonyms[j])
  {
    if synonyms != [] && !(synonyms[0] != "" && HasHangul(synonyms[0])) {
      var tail := synonyms[1..];
      FirstKoreanFinds(tail);
      assert forall k :: 1 <= k < |synonyms| ==> tail[k - 1] == synonyms[k];
      if FirstKorean(tail).Some? {
        var k :| 0 <= k < |tail| && HasHangul(tail[k]) && FirstKorean(tail).value == Strip(tail[k])
                 && forall j :: 0 <= j < k ==> !HasHangul(tail[j]);
        assert synonyms[k + 1] == tail[k];
        forall j | 0 <= j < k + 1 ensures !HasHangul(synonyms[j]) {
          if j > 0 { assert synonyms[j] == tail[j - 1]; }
        }
      }
    }
  }

  /** `extract_korean_from_synonyms`: `None` for a missing or empty list. */
  function ExtractKorean(synonyms: Option<seq<string>>): (r: Option<string>)
    ensures synonyms.None? || synonyms.value == [] ==> r.None?
  {
    if synonyms.None? || synonyms.value == [] then None else FirstKorean(synonyms.value)
  }

  /** A Korean title found is never blank: stripping keeps the Hangul syllable. */
  lemma StripKeepsHangul(s: string)
    requires HasHangul(s)
    ensures HasHangul(Strip(s))
  {
    var i :| 0 <= i < |s| && IsHangul(s[i]);
    StripKeeps(s, i);
  }

  lemma ExtractedHasHangul(synonyms: Option<seq<string>>)
    requires ExtractKorean(synonyms).Some?
    ensures HasHangul(ExtractKorean(synonyms).value)
  {
    FirstKoreanFinds(synonyms.value);
    var k :| 0 <= k < |synonyms.value| && HasHangul(synonyms.value[k])
             && ExtractKorean(synonyms).value == Strip(synonyms.value[k]);
    StripKeepsHangul(synonyms.value[k]);
  }

  // ================================================================ HTML tags

  /** Where a `<[^>]+>` match starting at `s[0]` ends (the index of its `>`), if any. */
  function TagEnd(s: string): (r: Option<nat>)
    ensures r.Some? ==> 2 <= r.value < |s| && s[0] == '<' && s[r.value] == '>'
    ensures r.Some? ==> forall k :: 1 <= k < r.value ==> s[k] != '>'
    ensures r.None? && |s| > 0 && s[0] == '<' ==> (|s| > 1 && s[1] == '>') || forall k :: 1 <= k < |s| ==> s[k] != '>'
  {
    if |s| < 2 || s[0] != '<' || s[1] == '>' then None
    else
      var k := FirstGt(s, 2);
      if k < |s| then Some(k) else None
  }

  /** The first `>` at or after `from`, or `|s|`. */
  function FirstGt(s: string, from: nat): (r: nat)
    requires from <= |s|
    ensures from <= r <= |s| && (r < |s| ==> s[r] == '>')
    ensures forall k :: from <= k < r ==> s[k] != '>'
    decreases |s| - from
  {
    if from == |s| then from else if s[from] == '>' then from else FirstGt(s, from + 1)
  }

  /** `re.sub(r"<[^>]+>", "", s)`: remove every tag, scanning left to right. */
  function StripTags(s: string): (r: string)
    ensures |r| <= |s|
    ensures forall i :: 0 <= i < |r| ==> r[i] in s
    decreases |s|
  {
    if s == [] then []
    else match TagEnd(s)
      case Some(j) =>
        var r := StripTags(s[j + 1..]);
        assert forall i :: 0 <= i < |r| ==> r[i] in s by {
          forall i | 0 <= i < |r| ensures r[i] in s { var x := r[i]; assert x in s[j + 1..]; }
        }
        r
      case None =>
        var r := StripTags(s[1..]);
        assert forall i :: 0 <= i < |r| ==> r[i] in s by {
          forall i | 0 <= i < |r| ensures r[i] in s { var x := r[i]; assert x in s[1..]; }
        }
        [s[0]] + r
  }

  /** No text of the form `<…>` with at least one character inside and no `>` before the end. */
  predicate NoTag(s: string) {
    forall i :: 0 <= i < |s| && s[i] == '<' ==> (i + 1 < |s| && s[i + 1] == '>') || '>' !in s[i + 1..]
  }

  /** The substitution leaves no tag behind. */
  lemma {:induction false} StripTagsNoTag(s: string)
    ensures NoTag(StripTags(s))
    decreases |s|
  {
    if s != [] {
      match TagEnd(s)
      case Some(j) => StripTagsNoTag(s[j + 1..]);
      case None =>
        var rest := StripTags(s[1..]);
        StripTagsNoTag(s[1..]);
        var r := [s[0]] + rest;
        forall i | 0 <= i < |r| && r[i] == '<' ensures (i + 1 < |r| && r[i + 1] == '>') || '>' !in r[i + 1..] {
          if i > 0 {
            assert r[i] == rest[i - 1];
            assert r[i + 1..] == rest[i..];
          } else {
            assert r[1..] == rest;
            if |s| > 1 && s[1] == '>' {
              FirstKept(s[1..]);
            } else {
              assert forall k :: 1 <= k < |s| ==> s[k] != '>';
              assert '>' !in s[1..];
            }
          }
        }
    }
  }

  /** A text that does not start with `<` keeps its first character. */
  lemma FirstKept(s: string)
    requires s != [] && s[0] != '<'
    ensures StripTags(s) != [] && StripTags(s)[0] == s[0]
  {
  }

  /** A text without tags is left unchanged. */
  lemma {:induction false} NoTagFixed(s: string)
    requires NoTag(s)
    ensures StripTags(s) == s
    decreases |s|
  {
    if s != [] {
      if s[0] == '<' && !(|s| > 1 && s[1] == '>') {
        assert '>' !in s[1..];
        forall k | 1 <= k < |s| ensures s[k] != '>' { assert s[k] == s[1..][k - 1]; }
      }
      assert TagEnd(s).None?;
      assert NoTag(s[1..]) by {
        forall i | 0 <= i < |s[1..]| && s[1..][i] == '<'
          ensures (i + 1 < |s[1..]| && s[1..][i + 1] == '>') || '>' !in s[1..][i + 1..]
        {
          assert s[i + 1] == '<';
          assert s[1..][i + 1..] == s[i + 2..];
        }
      }
      NoTagFixed(s[1..]);
    }
  }

  /** Removing the tags twice is removing them once. */
  lemma StripTagsIdempotent(s: string)
    ensures StripTags(StripTags(s)) == StripTags(s)
  {
    StripTagsNoTag(s);
    NoTagFixed(StripTags(s));
  }

  // ================================================================ AniList records

  /** The fields of one AniList `media` entry; a missing `title` object reads as all `None`. */
  datatype Media = Media(
    id: Option<int>, idMal: Option<int>,
    romaji: Option<string>, english: Option<string>, native: Option<string>,
    synonyms: Option<seq<string>>, description: Option<string>, genres: Option<seq<string>>,
    averageScore: Option<int>,
    extraLarge: Option<string>, large: Option<string>, medium: Option<string>)

  /** The MAL part of a record. `mal_episodes` and `mal_status` are only set by the merge. */
  datatype MalFields = MalFields(
    score: Option<real>, rank: Option<int>, popularity: Option<int>, members: Option<int>,
    synopsis: Option<string>, episodes: Option<int>, status: Option<string>)

  const NoMal := MalFields(None, None, None, None, None, None, None)

  datatype AnimeRecord = AnimeRecord(
    anilistId: Option<int>, malId: Option<int>,
    titleKorean: Option<string>, titleEnglish: Option<string>, titleNative: Option<string>,
    genres: seq<string>, synopsis: Option<string>, averageScore: Option<int>,
    coverImageUrl: Option<string>, mal: MalFields)

  predicate Truthy(s: Option<string>) { s.Some? && s.value != "" }

  /** Python's `a or b` on optional strings. */
  function Or(a: Option<string>, b: Option<string>): (r: Option<string>)
    ensures Truthy(a) ==> r == a
    ensures !Truthy(a) ==> r == b
  {
    if Truthy(a) then a else b
  }

  /** The description: tags removed and stripped, `None` when nothing is left; a falsy one is kept. */
  function Synopsis(desc: Option<string>): (r: Option<string>)
    ensures !Truthy(desc) ==> r == desc
    ensures Truthy(desc) ==> (r.None? <==> Strip(StripTags(desc.value)) == "")
    ensures Truthy(desc) && r.Some? ==> r.value == Strip(StripTags(desc.value))
  {
    if !Truthy(desc) then desc
    else
      var t := Strip(StripTags(desc.value));
      if t == "" then None else Some(t)
  }

  /** A synopsis made from a real description holds no tag and is not blank. */
  lemma SynopsisClean(desc: Option<string>)
    requires Truthy(desc) && Synopsis(desc).Some?
    ensures NoTag(Synopsis(desc).value) && Synopsis(desc).value != ""
  {
    StripTagsNoTag(desc.value);
    StrippedNoTag(StripTags(desc.value));
  }

  /** Stripping whitespace off a text without tags leaves no tag. */
  lemma StrippedNoTag(s: string)
    requires NoTag(s)
    ensures NoTag(Strip(s))
  {
    NoTagSuffix(s, |s| - |LStrip(s)|);
    NoTagPrefix(LStrip(s), |RStrip(LStrip(s))|);
  }

  lemma NoTagSuffix(s: string, off: nat)
    requires NoTag(s) && off <= |s|
    ensures NoTag(s[off..])
  {
    var l := s[off..];
    forall i | 0 <= i < |l| && l[i] == '<' ensures (i + 1 < |l| && l[i + 1] == '>') || '>' !in l[i + 1..] {
      assert l[i] == s[off + i];
      assert l[i + 1..] == s[off + i + 1..];
    }
  }

  lemma NoTagPrefix(s: string, n: nat)
    requires NoTag(s) && n <= |s|
    ensures NoTag(s[..n])
  {
    var r := s[..n];
    forall i | 0 <= i < |r| && r[i] == '<' ensures (i + 1 < |r| && r[i + 1] == '>') || '>' !in r[i + 1..] {
      assert r[i] == s[i];
      if i + 1 < |r| { assert r[i + 1] == s[i + 1]; }
      if '>' in r[i + 1..] {
        var k :| i + 1 <= k < |r| && r[k] == '>';
        assert s[k] == '>' && s[i + 1..][k - i - 1] == '>';
      }
    }
  }

  /** One record of `fetch_seasonal_top_anime`. */
  function Normalize(m: Media): AnimeRecord {
    AnimeRecord(
      m.id, m.idMal, ExtractKorean(m.synonyms), Or(m.english, m.romaji), m.native,
      m.genres.GetOr([]), Synopsis(m.description), m.averageScore,
      Or(m.extraLarge, Or(m.large, m.medium)), NoMal)
  }

  /** The record fields: cover fallback, English-then-romaji title, MAL fields unset. */
  lemma NormalizeFields(m: Media)
    ensures var r := Normalize(m);
            && r.mal == NoMal
            && (Truthy(m.extraLarge) ==> r.coverImageUrl == m.extraLarge)
            && (!Truthy(m.extraLarge) && Truthy(m.large) ==> r.coverImageUrl == m.large)
            && (!Truthy(m.extraLarge) && !Truthy(m.large) ==> r.coverImageUrl == m.medium)
            && (Truthy(m.english) ==> r.titleEnglish == m.english)
            && (!Truthy(m.english) ==> r.titleEnglish == m.romaji)
            && (r.synopsis.Some? && Truthy(m.description) ==> NoTag(r.synopsis.value) && r.synopsis.value != "")
  {
    if Synopsis(m.description).Some? && Truthy(m.description) { SynopsisClean(m.description); }
  }

  /** The `data["data"]["Page"]` object: missing or empty, or with its `media` list. */
  datatype PageData = EmptyPage | Page(media: Option<seq<Media>>)

  /**
   * The AniList reply: the request or the JSON decoding failed, GraphQL errors, or data.
   * From requests 2.27 on, the decoding error `resp.json()` raises is a `RequestException`,
   * so the first `except` clause catches both failures.
   */
  datatype AniListReply =
    | RequestFailed(reason: string)
    | BadJson(reason: string)
    | GraphQLErrors(messages: seq<string>)
    | Data(page: PageData)

  /** `fetch_seasonal_top_anime`: one record per media entry, or the error it raises. */
  method FetchSeasonal(reply: AniListReply) returns (r: Result<seq<AnimeRecord>, string>)
    ensures reply.RequestFailed? ==> r == Err("AniList API 요청 실패: " + reply.reason)
    ensures reply.BadJson? ==> r == Err("AniList API 요청 실패: " + reply.reason)
    ensures reply.GraphQLErrors? ==> r == Err("AniList GraphQL 오류: " + Join("; ", reply.messages))
    ensures reply.Data? && reply.page.EmptyPage? ==> r == Err("AniList 응답에 Page 데이터가 없습니다.")
    ensures reply.Data? && reply.page.Page? ==> r.Ok?
    ensures r.Ok? ==> reply.Data? && reply.page.Page?
    ensures r.Ok? ==> var ms := reply.page.media.GetOr([]);
                      |r.value| == |ms| && forall i :: 0 <= i < |ms| ==> r.value[i] == Normalize(ms[i])
  {
    match reply {
      case RequestFailed(e) => return Err("AniList API 요청 실패: " + e);
      case BadJson(e) => return Err("AniList API 요청 실패: " + e);
      case GraphQLErrors(msgs) => return Err("AniList GraphQL 오류: " + Join("; ", msgs));
      case Data(page) =>
        if page.EmptyPage? {
          return Err("AniList 응답에 Page 데이터가 없습니다.");
        }
        var records := NormalizeAll(page.media.GetOr([]));
        return Ok(records);
    }
  }

  /** The record loop of `fetch_seasonal_top_anime`: one record per entry, in order. */
  method NormalizeAll(mediaList: seq<Media>) returns (result: seq<AnimeRecord>)
    ensures |result| == |mediaList|
    ensures forall i :: 0 <= i < |mediaList| ==> result[i] == Normalize(mediaList[i])
  {
    result := [];
    var i := 0;
    while i < |mediaList|
      invariant 0 <= i <= |mediaList| && |result| == i
      invariant forall k :: 0 <= k < i ==> result[k] == Normalize(mediaList[k])
    {
      result := result + [Normalize(mediaList[i])];
      i := i + 1;
    }
  }

  // ================================================================ MAL

  /** The MAL detail reply: the JSON fields (`synopsis` missing reads as ""), or a failure. */
  datatype MalReply =
    | MalOk(mean: Option<real>, rank: Option<int>, popularity: Option<int>, numListUsers: Option<int>,
            synopsis: Option<string>, numEpisodes: Option<int>, status: Option<string>)
    | MalHttpError(statusCode: int)
    | MalFailed

  predicate MalIdTruthy(id: Option<int>) { id.Some? && id.value != 0 }

  /** `fetch_mal_detail`: `None` stands for the empty dict it returns on every failure. */
  function FetchMalDetail(clientId: string, malId: Option<int>, reply: MalReply): (r: Option<MalFields>)
    ensures clientId == "" || !MalIdTruthy(malId) ==> r.None?
    ensures r.Some? <==> clientId != "" && MalIdTruthy(malId) && reply.MalOk?
  {
    if clientId == "" || !MalIdTruthy(malId) then None
    else match reply
      case MalOk(mean, rank, pop, users, syn, eps, status) =>
        Some(MalFields(mean, rank, pop, users, syn, eps, status))
      case _ => None
  }

  /** One step of `enrich_with_mal`. */
  function EnrichOne(rec: AnimeRecord, clientId: string, reply: MalReply): AnimeRecord {
    if !MalIdTruthy(rec.malId) then rec
    else match FetchMalDetail(clientId, rec.malId, reply)
      case None => rec
      case Some(m) => rec.(mal := m)
  }

  /** The merge touches only the MAL fields, and only when the lookup returned data. */
  lemma EnrichOneChangesOnlyMal(rec: AnimeRecord, clientId: string, reply: MalReply)
    ensures var e := EnrichOne(rec, clientId, reply);
            && e.(mal := rec.mal) == rec
            && (e != rec ==> MalIdTruthy(rec.malId) && reply.MalOk? && clientId != "")
            && (!MalIdTruthy(rec.malId) || !reply.MalOk? || clientId == "" ==> e == rec)
            && (MalIdTruthy(rec.malId) && reply.MalOk? && clientId != "" ==> e.mal.score == reply.mean && e.mal.rank == reply.rank)
  {
  }

  /**
   * `enrich_with_mal` over the records in place; `replies[i]` is what the MAL lookup of
   * record `i` would answer. Without a client id nothing is looked up.
   */
  method EnrichWithMal(records: array<AnimeRecord>, clientId: string, replies: seq<MalReply>)
    requires |replies| == records.Length
    modifies records
    ensures clientId == "" ==> records[..] == old(records[..])
    ensures forall i :: 0 <= i < records.Length ==> records[i] == EnrichOne(old(records[i]), clientId, replies[i])
  {
    if clientId == "" {
      assert forall i :: 0 <= i < records.Length ==> EnrichOne(records[i], clientId, replies[i]) == records[i];
      return;
    }
    var i := 0;
    while i < records.Length
      invariant 0 <= i <= records.Length
      invariant forall k :: 0 <= k < i ==> records[k] == EnrichOne(old(records[k]), clientId, replies[k])
      invariant forall k :: i <= k < records.Length ==> records[k] == old(records[k])
    {
      var rec := records[i];
      if MalIdTruthy(rec.malId) {
        var malData := FetchMalDetail(clientId, rec.malId, replies[i]);
        if malData.Some? {
          records[i] := rec.(mal := malData.value);
        }
      }
      i := i + 1;
    }
  }
}
