# geekbrox automation core in Dafny

This project models the decision-making core of the geekbrox content pipeline and proves properties of it. The pipeline has these parts:

- a shared coordination store through which two coding tools ("claude_code", "cursor_ai") and a Telegram bot ("telegram_bot") report what they are working on;
- the anime data fetcher, the blog-draft generator and the Tistory poster;
- a small parser for a catalogue of public data APIs;
- two Telegram bots (the content-team bot and the Atlas bot) that route free-text messages and button callbacks.

Every external result is a parameter of the model and is never computed: HTTP replies, the browser, LLM replies, download success, the filesystem and the clock.

| file | module | what it models |
|---|---|---|
| wrappers.dfy | `Wrappers` | `Option` and `Result` |
| text.dfy | `Text` | Python string builtins used by the core: `str.strip`/`lstrip`/`rstrip` over the `str.isspace` set, `in`, `split`/`join`, `int()` and `str()` on numbers, the last-n and first-n slices, ASCII `lower()`, code-point ordering and `sorted(set(...))` |
| shared_state.dfy | `SharedState` | the store as a class `Store`, whose methods mirror the store's functions; conflict detection and its rules |
| tistory.dfy | `Tistory` | the Telegram keyword wait, cookie de-duplication, the alert decision, the login URL checks, the draft title/body split and the removal of image markup lines, the hashtag generator |
| generate_post.dfy | `GeneratePost` | `slugify`, the image-extension normaliser (with the parts of `urlparse` and `PurePath.suffix` it relies on), rate-limit classification, the Claude-to-Gemini fallback, the image-slot fallbacks, the season label, the title chains, revise-mode validation |
| fetch_anime.dfy | `FetchAnime` | the month-to-season rule, Korean-synonym extraction, record normalisation, the MAL guards and the MAL merge (in place over an array) |
| api_parse.dfy | `ApiParse` | `parse_api_line` (rank, URL, name, category, the features/idea split) and the line loop |
| api_catalogue.dfy | `ApiCatalogue` | the category grouping and the sorted category listing |
| bot_common.dfy | `BotCommon` | what the two bots share: the rate check over a 20-slot call buffer, the draft keyboard, callback indexes, script-output truncation, the summary list shaping, the chat session, the common tail of the text router |
| content_team_bot.dfy | `ContentTeamBot` | the content-team bot's full routing order and its text handler |
| atlas_bot.dfy | `AtlasBot` | the Atlas bot's text handler, which uses the shared tail only |

`content_team_bot.py` and `atlas_bot.py` hold the same helper code, line for line. The rows for `BotCommon` cite the content-team bot. The Atlas copies are at `atlas_bot.py` 87 and 90-107 (rate check and buffer), 205-214 (keyboard), 235-275 (summary), 278-297 (`run_script`), 492-563 (callbacks) and 670-773 (text handler).

Some behaviours are proved as they stand in the source:

- `BlogNeverRevises`: the log keyword "로그" is part of "블로그" (blog). So in the content-team bot, a revise instruction that mentions the blog is answered with the activity log instead. The awaiting flag then stays set.
- `QueueCancelNeverClears`: the cancel keywords "큐 취소" and "queue cancel" themselves contain the queue keywords "큐" and "queue". So they always reach the queue-status reply, and only "작업 취소" and bare "취소" clear the queue.
- `WhatPostRedundant`: the `"what" in t and "post" in t` clause of `_wants_summary` adds nothing, because "post" is a keyword already.
- Tistory.HashtagsExactlyTen: `generate_hashtags` always returns exactly ten tags, because the five fallbacks are new whenever the list is short.

## Model

| member | source | states |
|---|---|---|
| SharedState.MayConflictExactly | blog_automation/scripts/shared_state.py:57-62 | the sorted-pair rule table lets exactly claude_code and cursor_ai conflict, in either order |
| SharedState.SortedPairByRank | blog_automation/scripts/shared_state.py:190 | `tuple(sorted([a, b]))` orders the pair by the actor names claude_code < cursor_ai < telegram_bot |
| SharedState.RuleTable | blog_automation/scripts/shared_state.py:59-62 | the only rule entry that allows a conflict is (claude_code, cursor_ai) |
| SharedState.ActorNamesOrdered | blog_automation/scripts/shared_state.py:40-42 | the three actor names are strictly ordered by code point |
| SharedState.Intersect | blog_automation/scripts/shared_state.py:196-198 | the overlap holds exactly the files in both lists (set intersection) |
| SharedState.ConflictFor | blog_automation/scripts/shared_state.py:183-223 | the loop body for one other actor yields that actor's conflict (skip self, skip non-active, apply the rule, overlap or concurrent edit) |
| SharedState.DetectConflicts | blog_automation/scripts/shared_state.py:175-225 | the loop over the actors in dictionary order returns the conflicts each other actor causes, in order |
| SharedState.ConflictWithExists | blog_automation/scripts/shared_state.py:183-223 | another actor causes a conflict iff it is not the new actor, is running or waiting, the rule allows the pair, and both file lists are non-empty |
| SharedState.ConflictWithFacts | blog_automation/scripts/shared_state.py:195-223 | an overlap conflict is critical and lists the sorted intersection; a concurrent-edit conflict is a warning, needs an empty intersection and two non-empty lists, and lists both sorted sets; either one names the other actor, the new actor and the other actor's action, and is unresolved |
| SharedState.DetectInFacts | blog_automation/scripts/shared_state.py:183-223 | every conflict found over a list of actors comes from one of them and satisfies those facts |
| SharedState.DetectSound | blog_automation/scripts/shared_state.py:175-225 | every reported conflict satisfies those facts against the actor records |
| SharedState.DetectComplete | blog_automation/scripts/shared_state.py:183-223 | an active other actor with a rule allowing the pair and two non-empty file lists is always reported |
| SharedState.DetectInComplete | blog_automation/scripts/shared_state.py:183-223 | a conflict caused by any actor of the scanned list is in the result |
| SharedState.TelegramNeverConflicts | blog_automation/scripts/shared_state.py:59-62 | no reported conflict involves telegram_bot |
| SharedState.DetectInDistinct | blog_automation/scripts/shared_state.py:183-223 | scanning distinct actors reports each at most once |
| SharedState.DetectInLength | blog_automation/scripts/shared_state.py:183-185 | at most one conflict per scanned actor, and strictly fewer when the new actor is among them |
| SharedState.DetectAtMostOnePerActor | blog_automation/scripts/shared_state.py:175-225 | at most two conflicts, from distinct actors |
| SharedState.DefaultActors | blog_automation/scripts/shared_state.py:104-135 | the default state has a record for each of the three actors, all idle with no action, files, progress, detail, times or note |
| SharedState.DefaultInboxes | blog_automation/scripts/shared_state.py:141-145 | each actor starts with an empty inbox |
| SharedState.Resolve | blog_automation/scripts/shared_state.py:609-611 | marking a conflict resolved keeps its kind, actors, severity, action and detection time; an unresolved one gets `now` as its resolution time, and an already resolved one is left alone |
| SharedState.ResolveAll | blog_automation/scripts/shared_state.py:618-621 | every history entry is marked, in place, and nothing is added or dropped |
| SharedState.Store.constructor | blog_automation/scripts/shared_state.py:98-157 | `_default_state`: default actors and inboxes, no conflicts, notes or last completion |
| SharedState.Store.Log | blog_automation/scripts/shared_state.py:164-168 | the activity log gets the entry appended and keeps its newest 200; nothing else changes |
| SharedState.Store.SaveConflicts | blog_automation/scripts/shared_state.py:228-233 | the conflict history gets the conflicts appended and keeps its newest 100; nothing else changes |
| SharedState.Store.RegisterTask | blog_automation/scripts/shared_state.py:292-329 | with conflict checking off no conflicts are returned; otherwise the conflicts against the loaded state are returned, appended to the unresolved list and saved to the history; the actor is running on the given files, or [] when none are given, with empty progress and detail stored as None; the start is logged |
| SharedState.Store.MarkRunning | blog_automation/scripts/shared_state.py:316-328 | the actor record update and log line of `_register_task`; unresolved list and history unchanged |
| SharedState.Store.UpdateProgress | blog_automation/scripts/shared_state.py:332-336 | `_update_actor` from `*_update_progress`: progress set, detail set only when non-empty, activity time set; nothing else changes |
| SharedState.Store.Complete | blog_automation/scripts/shared_state.py:339-350 | the actor is done with no files and the result (or "완료") as detail; last completion records the actor, its previous action, the result and the time; the finish is logged |
| SharedState.Store.Fail | blog_automation/scripts/shared_state.py:353-361 | the actor is in error with the message as detail; the error is logged |
| SharedState.Store.MakeIdle | blog_automation/scripts/shared_state.py:364-373 | status, action, files, progress and detail reset; session note and start time unchanged; nothing logged |
| SharedState.Store.SetWaiting | blog_automation/scripts/shared_state.py:390-398 | claude_code waits with detail "{reason} ({wait_sec}초 대기)"; the wait is logged |
| SharedState.Store.SetFileModified | blog_automation/scripts/shared_state.py:409-416 | claude_code's file list becomes the newest ten after appending the path if new |
| SharedState.AddModified | blog_automation/scripts/shared_state.py:411-414 | the new file list has at most ten entries, each an old one or the path |
| SharedState.AddModifiedProperties | blog_automation/scripts/shared_state.py:412-414 | no duplicate is introduced; a new path ends the list; a listed path leaves a short list unchanged |
| SharedState.Store.AddSessionNote | blog_automation/scripts/shared_state.py:419-425 | `claude_add_note`/`cursor_add_note`: the actor's session note is set and the note is appended to the shared notes, newest 30 kept |
| SharedState.Store.TelegramAddNote | blog_automation/scripts/shared_state.py:640-644 | the bot's note is appended to the shared notes, newest 30 kept; actors unchanged |
| SharedState.Store.CheckMessages | blog_automation/scripts/shared_state.py:432-439 | `*_check_messages` returns the pending inbox and leaves it empty; the state is saved only when there were messages |
| SharedState.Store.SendMessage | blog_automation/scripts/shared_state.py:627-637 | the message, unread and from the bot, is appended to the recipient's inbox (created if missing), newest ten kept |
| SharedState.Store.ResolveConflicts | blog_automation/scripts/shared_state.py:604-624 | the unresolved list is emptied, the count is its previous length, every history entry is resolved with the history length unchanged, and the reply reports the count |
| Tistory.InitialOffset | blog_automation/scripts/post_to_tistory.py:112-119 | an offset is set iff the first poll succeeded with a non-empty result |
| Tistory.InitialOffsetSkipsPending | blog_automation/scripts/post_to_tistory.py:116-118 | the initial offset lies past every pending update, so earlier messages are ignored |
| Tistory.ScanBatch | blog_automation/scripts/post_to_tistory.py:143-154 | the scan over one batch sets the offset from each update it processes and stops at the first match |
| Tistory.ScanFoundIff | blog_automation/scripts/post_to_tistory.py:143-154 | the scan succeeds iff some update in the batch is from the configured chat and its stripped text contains the keyword |
| Tistory.ScanOffsetAdvances | blog_automation/scripts/post_to_tistory.py:143-144 | a scan without a match leaves the offset at the last update id plus one (or unchanged for an empty batch) |
| Tistory.OtherChatsNeverMatch | blog_automation/scripts/post_to_tistory.py:148-150 | updates from other chats never end the wait |
| Tistory.WaitForKeyword | blog_automation/scripts/post_to_tistory.py:98-159 | without a token or chat id the wait returns true at once; otherwise it is the poll loop from the initial offset; a failed request and a not-ok reply are skipped |
| Tistory.WaitLoopSound | blog_automation/scripts/post_to_tistory.py:126-159 | the wait returns true only if some poll delivered a matching update |
| Tistory.SaveCookies | blog_automation/scripts/post_to_tistory.py:166-200 | the saved cookies are the three sources in order, keeping the first cookie per "domain:name" key; a failing source adds nothing |
| Tistory.DedupeStep | blog_automation/scripts/post_to_tistory.py:173-176 | one step of the seen-set loop: a seen key is skipped, a new one is kept and marked seen |
| Tistory.FirstIndex | blog_automation/scripts/post_to_tistory.py:173-176 | the first position of a key, when it occurs |
| Tistory.DedupeDistinct | blog_automation/scripts/post_to_tistory.py:168-200 | no two saved cookies share a key, and none has a key seen before |
| Tistory.DedupeKeys | blog_automation/scripts/post_to_tistory.py:168-200 | the saved keys are exactly the keys offered, less those already seen |
| Tistory.DedupeFirst | blog_automation/scripts/post_to_tistory.py:168-200 | each saved cookie is the first occurrence of its key |
| Tistory.DedupeOrder | blog_automation/scripts/post_to_tistory.py:168-200 | the saved cookies keep the order of first appearance |
| Tistory.SavedCookiesDistinct | blog_automation/scripts/post_to_tistory.py:166-200 | over the three sources: keys distinct, every key kept, the first occurrence wins, order of first appearance kept |
| Tistory.ShouldAcceptExactly | blog_automation/scripts/post_to_tistory.py:245 | an alert is accepted iff its text contains "저장된 글이 있습니다", or both "이어서" and "작성" (the "이어서 작성" test adds nothing) |
| Tistory.DecideAlert | blog_automation/scripts/post_to_tistory.py:242-252 | one alert is accepted or dismissed by that rule on its stripped text |
| Tistory.HandleAlerts | blog_automation/scripts/post_to_tistory.py:240-254 | at most five alerts are handled, each decided by that rule, stopping when none is present |
| Tistory.NewpostUrlIsNewpost | blog_automation/scripts/post_to_tistory.py:72 | the editor URL passes `is_on_newpost` |
| Tistory.NewpostImpliesManage | blog_automation/scripts/post_to_tistory.py:396-399 | a URL on the editor page is on the manage pages |
| Tistory.LoginPageIsNotLoggedIn | blog_automation/scripts/post_to_tistory.py:604-608 | landing on the login page never counts as a cookie login: its URL holds "/auth/login", and its redirect target is percent-encoded ("tistory.com%2Fmanage%2Fnewpost") |
| Tistory.SplitDraftNoHeading | blog_automation/scripts/post_to_tistory.py:639-644 | without a "# " heading the title is the file stem and the body is all lines joined |
| Tistory.SplitDraftTitle | blog_automation/scripts/post_to_tistory.py:641-642 | with a heading the title is the heading text stripped: no edge whitespace, no longer, every non-space character kept |
| Tistory.SplitDraftHeading | blog_automation/scripts/post_to_tistory.py:644 | with a heading the body is the later lines joined with the leading whitespace removed |
| Tistory.RemoveNothing | blog_automation/scripts/post_to_tistory.py:668 | text in which no line starts with an image markup link is left unchanged by the removal |
| Tistory.LeadingImageLineRemoved | blog_automation/scripts/post_to_tistory.py:668 | a leading `![alt](../images/name)` line is removed together with all the whitespace after it; the text after it is kept |
| Tistory.PostWithoutImages | blog_automation/scripts/post_to_tistory.py:639-668 | for a draft without image markup lines the posted title and body are the title/body split, with the body left-stripped |
| Tistory.Hashed | blog_automation/scripts/post_to_tistory.py:752 | each tag gets a "#" prefix, in order |
| Tistory.AddGenreTags | blog_automation/scripts/post_to_tistory.py:681-705 | the common tags, then the genre loop in table order |
| Tistory.GenreStepFacts | blog_automation/scripts/post_to_tistory.py:701-705 | the genre loop extends the list, stops at nine, adds only new genre tags |
| Tistory.DedupeTags | blog_automation/scripts/post_to_tistory.py:734-741 | the dedupe loop keeps first occurrences and stops at ten |
| Tistory.DedupeCapShape | blog_automation/scripts/post_to_tistory.py:734-741 | the deduped list extends its start, is distinct and has at most ten tags |
| Tistory.DedupeCapMembers | blog_automation/scripts/post_to_tistory.py:734-741 | the deduped list holds only offered tags |
| Tistory.DedupeCapPrefix | blog_automation/scripts/post_to_tistory.py:734-741 | a distinct leading run is kept in place |
| Tistory.AddFallbacks | blog_automation/scripts/post_to_tistory.py:744-750 | the fallback loop adds unseen fallbacks while fewer than ten |
| Tistory.FillFacts | blog_automation/scripts/post_to_tistory.py:744-750 | filling extends the list, keeps it distinct, and reaches ten or runs out of missing fallbacks |
| Tistory.FillMembers | blog_automation/scripts/post_to_tistory.py:744-750 | filling adds only fallbacks |
| Tistory.WorkTagFacts | blog_automation/scripts/post_to_tistory.py:711-715 | the work-name step adds at most one new tag, with no spaces |
| Tistory.YearSeasonTagsFrom | blog_automation/scripts/post_to_tistory.py:718-731 | the year step adds only a year tag and the season step only a season tag |
| Tistory.CandidatesFrom | blog_automation/scripts/post_to_tistory.py:677-731 | the candidates start with the common tags and hold only common, genre, work, year or season tags |
| Tistory.DedupeKeepsCommon | blog_automation/scripts/post_to_tistory.py:734-741 | the deduped candidates keep the common tags first, are distinct, at most ten, and only candidates |
| Tistory.FillReachesTen | blog_automation/scripts/post_to_tistory.py:744-750 | filling a distinct list of at most ten that starts with the common tags, and has at most one fallback (from the work name), gives exactly ten distinct tags with the common tags first |
| Tistory.FinalFromFacts | blog_automation/scripts/post_to_tistory.py:734-750 | dedupe then fill of any candidate list starting with the common tags gives exactly ten distinct tags, the common tags first |
| Tistory.YearSeasonAreNew | blog_automation/scripts/post_to_tistory.py:681-731 | year and season tags are never common or genre tags, and no tag is both |
| Tistory.LiteralsHaveNoSpace | blog_automation/scripts/post_to_tistory.py:681-750 | no literal tag of the tables contains a space |
| Tistory.GenerateHashtags | blog_automation/scripts/post_to_tistory.py:672-752 | the method's result is the hash-prefixed, space-joined final tag list |
| Tistory.HashtagsExactlyTen | blog_automation/scripts/post_to_tistory.py:673-752 | exactly ten distinct tags, the first five the common tags in order, each "#"-prefixed and split back by the spaces |
| Tistory.HashtagTextSplits | blog_automation/scripts/post_to_tistory.py:752 | the joined text splits on spaces into the hashed tags |
| Tistory.FinalTagsFrom | blog_automation/scripts/post_to_tistory.py:677-750 | every final tag is a candidate or a fallback |
| Tistory.TagHasNoSpace | blog_automation/scripts/post_to_tistory.py:681-750 | no final tag contains a space |
| Tistory.YearPriority | blog_automation/scripts/post_to_tistory.py:718-721 | a year tag that did not come from the work name needs its year in the text: "2026년애니" needs "2026", and "2025년애니" needs "2025" without "2026" |
| Tistory.SeasonPriority | blog_automation/scripts/post_to_tistory.py:724-731 | a season tag that did not come from the work name needs its season keyword and none of the higher-priority ones (winter > spring > summer > fall) |
| Tistory.LiteralsDistinct | blog_automation/scripts/post_to_tistory.py:681 | the common and fallback tag lists have no repeats |
| Tistory.FallbacksAreNew | blog_automation/scripts/post_to_tistory.py:744 | no fallback is a common, genre, year or season tag |
| GeneratePost.KeepSlugChars | blog_automation/scripts/generate_post.py:58 | only word characters, whitespace and "-" remain; a character is in the result iff it is in the input and is one of those |
| GeneratePost.KeepOne | blog_automation/scripts/generate_post.py:58 | a single character is kept iff it is a word character, whitespace or "-", else removed |
| GeneratePost.KeepAppend | blog_automation/scripts/generate_post.py:58 | the substitution distributes over concatenation, so with `KeepOne` it keeps exactly those characters, in order |
| GeneratePost.MiddleDotDropped | blog_automation/scripts/generate_post.py:58 | the katakana middle dot is not a word character: "ア・イ" keeps "アイ" |
| GeneratePost.MiddleDotSlug | blog_automation/scripts/generate_post.py:56-60 | the slug of "ア・イ" is "アイ" |
| GeneratePost.CollapseFacts | blog_automation/scripts/generate_post.py:59 | over kept characters, the collapsed text holds word characters and single hyphens only, is empty iff the input is, and starts with "-" iff the input starts with a separator |
| GeneratePost.SliceTo | blog_automation/scripts/generate_post.py:60 | `text[:max_len]` as Python slices, negative bounds included |
| GeneratePost.Slugify | blog_automation/scripts/generate_post.py:56-60 | the slug is never empty |
| GeneratePost.SlugCoreShape | blog_automation/scripts/generate_post.py:58-60 | before the fallback: slug characters only, no leading "-", at most `max_len` long |
| GeneratePost.SlugifyShape | blog_automation/scripts/generate_post.py:56-60 | word characters and single hyphens only, no whitespace, no leading hyphen, at most `max_len` long unless it is "untitled" |
| GeneratePost.SlugifyFixesSlugs | blog_automation/scripts/generate_post.py:56-60 | a slug that already has that shape, does not end in "-" and fits in `max_len` is returned unchanged |
| GeneratePost.MainSlugIsSlugify | blog_automation/scripts/generate_post.py:831 | `slugify(...) or f"anime_{i}"` never uses its fallback |
| GeneratePost.Components | blog_automation/scripts/generate_post.py:79 | `PurePath` drops empty and "." components |
| GeneratePost.Suffix | blog_automation/scripts/generate_post.py:79 | a suffix is empty or a "." followed by at least one character that is not "." |
| GeneratePost.ImageExtension | blog_automation/scripts/generate_post.py:76-80 | always one of .jpg/.jpeg/.png/.webp/.gif; the lowered suffix when it is one of them, else .jpg |
| GeneratePost.ExtensionOfFileUrl | blog_automation/scripts/generate_post.py:76-80 | for an https URL with an ASCII host without brackets whose last segment is a file name, the result is that file's lowered extension |
| GeneratePost.NewlineDeleted | blog_automation/scripts/generate_post.py:78-80 | a line feed inside the URL is deleted before the split: "https://h/a.pn\ng" gives ".png" |
| GeneratePost.SameCleanSameExtension | blog_automation/scripts/generate_post.py:78-80 | URLs that are equal after the clean-up get the same extension |
| GeneratePost.LStripControl | blog_automation/scripts/generate_post.py:78 | `urlsplit` drops exactly the leading run of controls and spaces (U+0000 to U+0020) |
| GeneratePost.RemoveUnsafeKeeps | blog_automation/scripts/generate_post.py:78 | `urlsplit`'s deletion keeps every character except tab, CR and LF, and adds none |
| GeneratePost.RemoveUnsafeAppend | blog_automation/scripts/generate_post.py:78 | the deletion works character by character: it distributes over concatenation |
| GeneratePost.CleanFileUrl | blog_automation/scripts/generate_post.py:78 | the clean-up leaves https://host/name alone when the host and name hold no tab, CR or LF |
| GeneratePost.FileUrlPath | blog_automation/scripts/generate_post.py:78 | for https://host/name, with an ASCII host holding none of "/", "?", "#", "[", "]", tab, CR, LF and a name holding none of "/", "?", "#", ";", tab, CR, LF, the URL path is "/name" |
| GeneratePost.NameOfFileUrl | blog_automation/scripts/generate_post.py:78-79 | the `PurePath(...).name` of such a URL is its last segment |
| GeneratePost.KeywordIsRateLimit | blog_automation/scripts/generate_post.py:461-463 | a message containing any of the five keywords, anywhere, is a rate-limit error |
| GeneratePost.RateLimitInContext | blog_automation/scripts/generate_post.py:461-463 | surrounding text never makes a rate-limit message lose that status |
| GeneratePost.CallLlmFallback | blog_automation/scripts/generate_post.py:487-513 | Gemini is called iff there is no Anthropic key or Claude failed with a rate-limit error; a Claude text reply is returned as is; any other Claude failure is raised as "Claude API 호출 실패: ..." without calling Gemini |
| GeneratePost.CoverAndPoster | blog_automation/scripts/generate_post.py:402-422 | the cover slot exists iff the cover URL is non-empty and its download succeeded, with the URL's extension; with TMDB posters the poster slot exists iff the first poster downloaded; without posters it reuses the cover path when there is a cover URL, and is absent otherwise |
| GeneratePost.AddStills | blog_automation/scripts/generate_post.py:424-452 | still1 from the first backdrop; still2 from the second, or still1's path with one backdrop; still3 from the third backdrop, else the second poster, else the poster, cover or "" path |
| GeneratePost.CollectImages | blog_automation/scripts/generate_post.py:389-454 | all five slot rules together, with downloads as an oracle |
| GeneratePost.SeasonLabelDefaults | blog_automation/scripts/generate_post.py:794-797 | missing fields give "2026 겨울" |
| GeneratePost.SeasonLabelUnknown | blog_automation/scripts/generate_post.py:797 | an unknown season name passes through |
| GeneratePost.TitleOr | blog_automation/scripts/generate_post.py:538-543 | the first non-empty of Korean, English and native title, else the fallback |
| GeneratePost.TitleChainsDiffer | blog_automation/scripts/generate_post.py:823-828 | the draft and main title chains differ exactly when all three titles are empty |
| GeneratePost.TitleNeverEmpty | blog_automation/scripts/generate_post.py:538-543 | neither title chain gives an empty title |
| GeneratePost.ReviseRejects | blog_automation/scripts/generate_post.py:910-917 | revise mode exits with code 1 before any LLM call iff the file is missing or the instruction is blank |
| FetchAnime.SeasonTable | blog_automation/scripts/fetch_anime.py:31-40 | months 12, 1, 2 are winter, 3-5 spring, 6-8 summer, 9-11 fall |
| FetchAnime.SeasonYear | blog_automation/scripts/fetch_anime.py:33-34 | the year goes up by one in December only |
| FetchAnime.DecemberJoinsNextWinter | blog_automation/scripts/fetch_anime.py:31-41 | December belongs to the same season as the next January and February |
| FetchAnime.FirstKoreanFinds | blog_automation/scripts/fetch_anime.py:49-52 | a synonym is returned iff one holds a Hangul syllable; it is the first such, stripped |
| FetchAnime.ExtractKorean | blog_automation/scripts/fetch_anime.py:44-47 | None or an empty list gives None |
| FetchAnime.ExtractedHasHangul | blog_automation/scripts/fetch_anime.py:48-51 | a returned title holds a Hangul syllable |
| FetchAnime.StripTags | blog_automation/scripts/fetch_anime.py:123 | removing tags keeps only characters of the input and never lengthens it |
| FetchAnime.StripTagsNoTag | blog_automation/scripts/fetch_anime.py:123 | no complete tag is left |
| FetchAnime.StripTagsIdempotent | blog_automation/scripts/fetch_anime.py:123 | removing tags twice is removing them once |
| FetchAnime.NoTagFixed | blog_automation/scripts/fetch_anime.py:123 | text without a tag is left unchanged |
| FetchAnime.Synopsis | blog_automation/scripts/fetch_anime.py:121-123 | a falsy description passes through; otherwise the tag-free stripped text, or None when that is empty |
| FetchAnime.Or | blog_automation/scripts/fetch_anime.py:125-129 | Python's `a or b`: a non-empty first value wins, otherwise the second |
| FetchAnime.SynopsisClean | blog_automation/scripts/fetch_anime.py:122-123 | a kept synopsis is non-empty and tag-free |
| FetchAnime.NormalizeFields | blog_automation/scripts/fetch_anime.py:119-146 | cover URL falls back extraLarge, large, medium; English title falls back to romaji; MAL fields all start empty |
| FetchAnime.NormalizeAll | blog_automation/scripts/fetch_anime.py:117-147 | one record per media entry, in order |
| FetchAnime.FetchSeasonal | blog_automation/scripts/fetch_anime.py:95-147 | a failed request and an undecodable reply both give the request-failure message, GraphQL errors and a missing page their own messages; a page gives one normalised record per media entry |
| FetchAnime.FetchMalDetail | blog_automation/scripts/fetch_anime.py:154-191 | no client id or a falsy MAL id gives {}; a result exists iff both are present and the request succeeded |
| FetchAnime.EnrichOneChangesOnlyMal | blog_automation/scripts/fetch_anime.py:202-217 | merging changes only the MAL fields, and only when the id is set, the client id is non-empty and the fetch returned data; the score and rank are then the reply's |
| FetchAnime.EnrichWithMal | blog_automation/scripts/fetch_anime.py:194-226 | the records are merged in place one by one; no client id leaves them unchanged; the length never changes |
| ApiParse.SchemeAt | teams/ops/workspace/research/api-database/parse_api_data.py:113 | "https://" or "http://" followed by a non-space character starts a match |
| ApiParse.UrlStart | teams/ops/workspace/research/api-database/parse_api_data.py:113 | the search finds the first such position |
| ApiParse.UrlMatch | teams/ops/workspace/research/api-database/parse_api_data.py:113 | a match is a non-empty span of the line |
| ApiParse.UrlShape | teams/ops/workspace/research/api-database/parse_api_data.py:113-117 | the URL starts with a scheme, has no whitespace, ends at whitespace or the line end, and is the first candidate |
| ApiParse.LeadingDigitsOf | teams/ops/workspace/research/api-database/parse_api_data.py:121 | a digit run followed by a non-digit is exactly the leading digit run |
| ApiParse.LeadingDigits | teams/ops/workspace/research/api-database/parse_api_data.py:121 | the leading digit run |
| ApiParse.LeadingDigitsBefore | teams/ops/workspace/research/api-database/parse_api_data.py:118-121 | cutting the line at the URL does not change the leading digit run |
| ApiParse.NamePatternsAgree | teams/ops/workspace/research/api-database/parse_api_data.py:134-143 | both name patterns give the maximal run of name characters, and a name exists iff the text starts with an uppercase ASCII letter |
| ApiParse.LazyNameEndIsSpan | teams/ops/workspace/research/api-database/parse_api_data.py:134 | the lazy name pattern, when it matches, ends where the run of name characters ends |
| ApiParse.NameStrip | teams/ops/workspace/research/api-database/parse_api_data.py:139-141 | the stripped name is a non-empty prefix starting with the uppercase letter |
| ApiParse.SlashCategory | teams/ops/workspace/research/api-database/parse_api_data.py:147 | the "/" category ends at the first Hangul character, which starts two Hangul in a row, after a "/" |
| ApiParse.SlashCategoryUnique | teams/ops/workspace/research/api-database/parse_api_data.py:147 | that end is the only possible one |
| ApiParse.ShortCategory | teams/ops/workspace/research/api-database/parse_api_data.py:150 | the lazy 2-20 character category is the shortest that fits before three Hangul |
| ApiParse.CategorySplit | teams/ops/workspace/research/api-database/parse_api_data.py:147-157 | no match leaves the category empty and the text unchanged; otherwise the text is split at the category |
| ApiParse.CategorySplitParts | teams/ops/workspace/research/api-database/parse_api_data.py:147-157 | the "/" category is the stripped text before its end; failing that, the short category is the stripped text before its end |
| ApiParse.ShortCategoryKept | teams/ops/workspace/research/api-database/parse_api_data.py:150-154 | the fallback category is taken as matched, without stripping |
| ApiParse.PatternSplit | teams/ops/workspace/research/api-database/parse_api_data.py:180-184 | a split point exists iff the pattern occurs, and the pattern matches there |
| ApiParse.PatternSplitSecond | teams/ops/workspace/research/api-database/parse_api_data.py:180-184 | the split is the first match after the end of the first match (the scan does not overlap), or the first match when there is no later one |
| ApiParse.SearchFrom | teams/ops/workspace/research/api-database/parse_api_data.py:180 | the search finds the first match at or after the start, and none lies before it |
| ApiParse.SplitPosition | teams/ops/workspace/research/api-database/parse_api_data.py:178-185 | the loop over the idea patterns gives the split position of the first pattern that occurs, else half the length |
| ApiParse.SplitSpecMiddle | teams/ops/workspace/research/api-database/parse_api_data.py:178 | with no pattern present the split is at half the length |
| ApiParse.SplitSpecFirst | teams/ops/workspace/research/api-database/parse_api_data.py:179-185 | else the split is that of the first pattern in list order that occurs: its second non-overlapping match, or its only match |
| ApiParse.SplitLosesNothing | teams/ops/workspace/research/api-database/parse_api_data.py:187-188 | for text without whitespace, features followed by idea gives the text back |
| ApiParse.ParseFields | teams/ops/workspace/research/api-database/parse_api_data.py:126-188 | fields exist iff the text after the rank starts with an uppercase letter, and the name is a prefix of it |
| ApiParse.ParseFieldsParts | teams/ops/workspace/research/api-database/parse_api_data.py:134-188 | the name is the stripped run of name characters; the category comes from the category split of the text after the name; features and idea are the stripped parts of the rest on either side of the split position |
| ApiParse.ParseApiLine | teams/ops/workspace/research/api-database/parse_api_data.py:110-197 | no URL or no leading digits gives None; otherwise the URL is the matched span and the rank is the value of the digit run |
| ApiParse.ParseApiLineExactly | teams/ops/workspace/research/api-database/parse_api_data.py:110-197 | a line parses iff it has a URL, a digit run before it, and an uppercase letter right after the digits; the name, category, features and idea are the fields of the text between the digits and the URL |
| ApiParse.ParsedEntries | teams/ops/workspace/research/api-database/parse_api_data.py:203-206 | never more entries than lines |
| ApiParse.ParsedEntriesFrom | teams/ops/workspace/research/api-database/parse_api_data.py:203-206 | every entry is the parse of one of the lines |
| ApiParse.ParseAll | teams/ops/workspace/research/api-database/parse_api_data.py:201-206 | the loop keeps the parsed entries in line order |
| ApiCatalogue.CategoryKey | teams/ops/workspace/research/api-database/parse_api_data.py:226 | an empty category is grouped as "기타", so no key is empty |
| ApiCatalogue.GroupByCategory | teams/ops/workspace/research/api-database/parse_api_data.py:224-229 | the category list and the group keys are exactly the categories present, and each group is that category's entries in input order |
| ApiCatalogue.InCategoryAppend | teams/ops/workspace/research/api-database/parse_api_data.py:225-229 | a category's entries over joined inputs are the joined entries |
| ApiCatalogue.ListingHeadings | teams/ops/workspace/research/api-database/parse_api_data.py:232 | the headings are the sorted distinct categories, whatever order they were grouped in |
| ApiCatalogue.SectionsPermutation | teams/ops/workspace/research/api-database/parse_api_data.py:232-234 | writing the sections of distinct keys covering every entry writes each entry once |
| ApiCatalogue.ListingPermutation | teams/ops/workspace/research/api-database/parse_api_data.py:224-239 | the listing is a permutation of the parsed entries under strictly sorted headings |
| BotCommon.CountWithin | blog_automation/scripts/content_team_bot.py:115 | a window never counts more calls than recorded |
| BotCommon.CountWithinMonotone | blog_automation/scripts/content_team_bot.py:115-117 | a narrower window counts no more calls |
| BotCommon.RecommendedDelay | blog_automation/scripts/content_team_bot.py:122 | at least the queue delay, at most max(queue delay, 60), and exactly that when eight or more recent calls clamp the divisor |
| BotCommon.DelayMonotone | blog_automation/scripts/content_team_bot.py:122 | more recent calls never shorten the delay |
| BotCommon.RateLimitStatus | blog_automation/scripts/content_team_bot.py:111-123 | burst ≤ recent ≤ number of recorded calls; safe iff recent < 8 and burst < 2; the delay is at least the queue delay, and max(queue delay, 60) at eight or more recent calls |
| BotCommon.TwoCallsNowUnsafe | blog_automation/scripts/content_team_bot.py:117-121 | two calls at this instant make the status unsafe |
| BotCommon.PushBounded | blog_automation/scripts/content_team_bot.py:108 | appending to the 20-slot deque keeps at most 20 and drops the oldest when full |
| BotCommon.CallLog.Record | blog_automation/scripts/content_team_bot.py:126-128 | recording a call is that bounded append |
| BotCommon.CallLog.Status | blog_automation/scripts/content_team_bot.py:111-123 | over the buffer recent is at most 20 and burst at most recent |
| BotCommon.DraftListKeyboard | blog_automation/scripts/content_team_bot.py:233-242 | at most eight file rows, row i carrying view_i and del_i, then the menu row |
| BotCommon.CallbackIndex | blog_automation/scripts/content_team_bot.py:983 | a parsed index needs a "_" in the data; data that Python's `int(data.split("_")[1])` rejects gives None |
| BotCommon.CallbackRoundTrip | blog_automation/scripts/content_team_bot.py:983 | a prefix ending in its only "_", followed by a number, gives that number back |
| BotCommon.PyIndex | blog_automation/scripts/content_team_bot.py:988 | Python list indexing, negative indexes included |
| BotCommon.KeyboardCallbacksResolve | blog_automation/scripts/content_team_bot.py:233-242 | both buttons of keyboard row i parse back to index i, which names file i |
| BotCommon.Preview | blog_automation/scripts/content_team_bot.py:994 | the preview starts with the first 1800 characters, is at most the ellipsis longer, and short content is shown whole |
| BotCommon.ViewDraft | blog_automation/scripts/content_team_bot.py:982-1005 | an index at or past the list replies "not found"; Python raises iff the index is unparsable or below -len; a shown draft is a listed, existing file with its preview |
| BotCommon.ViewListedDraft | blog_automation/scripts/content_team_bot.py:982-1005 | view_n of an existing listed file shows it with a revise_n button |
| BotCommon.DeleteDraft | blog_automation/scripts/content_team_bot.py:1008-1014 | a file is unlinked only when the index is inside the list and the file exists |
| BotCommon.DeleteListedDraft | blog_automation/scripts/content_team_bot.py:1008-1014 | del_n of an existing listed file unlinks exactly that file |
| BotCommon.ReviseCallbackIndex | blog_automation/scripts/content_team_bot.py:1035 | "revise" (or data without "_") means index 0 |
| BotCommon.ReviseIndexRoundTrip | blog_automation/scripts/content_team_bot.py:1035 | "revise_k" means index k |
| BotCommon.RevisePromptTarget | blog_automation/scripts/content_team_bot.py:1038-1039 | the prompt names file idx, or "초안" past the list |
| BotCommon.TruncateOutput | blog_automation/scripts/content_team_bot.py:321 | at most 1500 characters, the last ones kept |
| BotCommon.ScriptResult | blog_automation/scripts/content_team_bot.py:306-325 | success iff the script exited with 0; the output is stdout+stderr stripped and cut to its last 1500 characters; a missing script or timeout has its own message, and any other exception gives "실행 오류: " followed by its text |
| BotCommon.PendingSection | blog_automation/scripts/content_team_bot.py:298-302 | a header with the count, at most ten drafts, and "... 외 N개" when there are more |
| BotCommon.DoneSection | blog_automation/scripts/content_team_bot.py:292-295 | a header with the count, the last ten of the name-sorted published drafts in reverse order (`done[-10:][::-1]`), then a blank line |
| BotCommon.WhatPostRedundant | blog_automation/scripts/content_team_bot.py:1136 | the summary test is the keyword test or "tell me" |
| BotCommon.TailRoute | blog_automation/scripts/content_team_bot.py:1266-1356 | a queue keyword always gives the queue status; revise needs the awaiting flag |
| BotCommon.QueueKeyWithin | blog_automation/scripts/content_team_bot.py:1266 | text holding a phrase that holds a queue keyword is a queue query |
| BotCommon.QueueCancelNeverClears | blog_automation/scripts/content_team_bot.py:1266-1285 | "큐 취소" and "queue cancel" reach the queue status, never the cancel |
| BotCommon.CancelNeedsChwiso | blog_automation/scripts/content_team_bot.py:1278-1285 | a cancel happens only for text holding "취소" and no queue keyword |
| BotCommon.AwaitingReviseTaken | blog_automation/scripts/content_team_bot.py:1296 | with the awaiting flag, text that is not a queue, cancel or confirmation message is the revise instruction |
| BotCommon.NoteBodyAfterPrefix | blog_automation/scripts/content_team_bot.py:1236 | the note body is the text after the command's colon, stripped |
| BotCommon.ReviseAction | blog_automation/scripts/content_team_bot.py:1298-1323 | no files or an index past the list replies "not found"; a run regenerates a listed, existing draft with the message as instruction; a listed existing draft is always run |
| BotCommon.ReviseFlow | blog_automation/scripts/content_team_bot.py:1034-1323 | pressing revise_n and sending an instruction regenerates draft n |
| BotCommon.Session.OnReviseCallback | blog_automation/scripts/content_team_bot.py:1034-1039 | a revise button sets the awaiting flag and the index, and prompts for that file |
| BotCommon.Session.Dispatch | blog_automation/scripts/content_team_bot.py:1266-1356 | the reply for the route; cancel empties the queue; a revise instruction clears the awaiting flag |
| ContentTeamBot.Route | blog_automation/scripts/content_team_bot.py:1173-1356 | help is recognised first and exactly; a note needs its prefix; revise needs the awaiting flag |
| ContentTeamBot.ResolveBeforeConflicts | blog_automation/scripts/content_team_bot.py:1182-1199 | "충돌 해제" resolves, although it also matches the conflict listing |
| ContentTeamBot.QueueCancelNeverClearsHere | blog_automation/scripts/content_team_bot.py:1266-1285 | this bot, too, never cancels on "큐 취소" or "queue cancel" |
| ContentTeamBot.BlogNeverRevises | blog_automation/scripts/content_team_bot.py:1250-1296 | text mentioning "블로그" is a log request, never the revise instruction |
| ContentTeamBot.NoteCarriesBody | blog_automation/scripts/content_team_bot.py:1235-1247 | "메모:" hands on the stripped rest, and an empty note is dropped |
| ContentTeamBot.HandleText | blog_automation/scripts/content_team_bot.py:1169-1356 | the stripped message is routed and answered; cancel empties the queue, revise clears the flag, nothing else changes |
| AtlasBot.HandleText | blog_automation/scripts/atlas_bot.py:679-773 | the same with the tail routes only |
| AtlasBot.OnlyTailRoutes | blog_automation/scripts/atlas_bot.py:682-773 | no Atlas message is a help, conflict, status, note or log request |
| Text.StripAllSpace | blog_automation/scripts/generate_post.py:915 | `strip()` gives "" iff every character is whitespace |
| Text.JoinSplit | blog_automation/scripts/post_to_tistory.py:639-644 | `"\n".join(s.split("\n")) == s` |
| Text.SplitJoin | blog_automation/scripts/post_to_tistory.py:644 | splitting joined lines without the separator gives the lines back |
| Text.PyIntNatToString | blog_automation/scripts/content_team_bot.py:983 | `int(str(n)) == n` |
| Text.TakeLast | blog_automation/scripts/shared_state.py:167 | `xs[-n:]`: the newest n entries |
| Text.SortedUnique | teams/ops/workspace/research/api-database/parse_api_data.py:232 | `sorted` of distinct keys: strictly ordered, same elements |
| Text.SortedDetermined | teams/ops/workspace/research/api-database/parse_api_data.py:232 | two strictly sorted lists with the same elements are equal |

## Left out

- Browser driving (Selenium) in `post_to_tistory.py` is not modelled: the driver, DOM selectors, sleeps and the publish cascade. `save_cookies` and `dismiss_alert_if_present` receive the driver's cookie lists and alert texts as parameters.
- Network clients (Telegram, AniList, MAL, TMDB, YouTube, Reddit, Claude, Gemini): only their outcomes are modelled, as datatypes passed in. `download_image` is a set of URLs that download successfully.
- Filesystem persistence: loading, saving and the temp-file rename of the store files; JSON serialisation; directory globbing and sorting; `move_to_done`; `unlink`; and the output files of `parse_api_data.py`. The store is the `Store` object's fields, and the side histories are two of its fields.
- Clocks: `_now()`, `datetime.now()`, `time.time()` and `time.monotonic()`. Timestamps are opaque strings in the store and integer ticks in the rate check, which therefore does not model float seconds. The ten-minute deadline of `tg_wait_keyword` is modelled as the finite list of polls made before it expires.
- `get_current_season` reads the month from the clock; the model takes it as a parameter.
- Python `str.lower()` is modelled as ASCII lower-casing. All keywords compared are ASCII or Hangul.
- `\w` in `slugify` is a fixed character predicate, not the full Unicode word class: ASCII letters and digits, `_`, the Latin-1 letters, the kana letters, the Hangul jamo and syllables and the CJK ideographs. Other letters and digits that Python's `\w` accepts (Greek, Cyrillic, fullwidth forms, superscript digits and so on) are removed by the model. `\s` and `str.strip()` use the exact `str.isspace` set.
- The bracket- and separator-removal regexes that derive the work name in `generate_hashtags` (lines 709-710) are not modelled. The cleaned work name is a parameter; the length test, space/slash removal and duplicate check that follow are modelled.
- The line preparation of `parse_api_data.py` (line 200: strip, drop blank lines) is not modelled. `ParseAll` takes the prepared lines, and the embedded API list is not part of the model.
- The category listing writes only the order of the entries; the Markdown text of each entry (lines 217-241) is left out.
- `telegram_format_status`, `telegram_get_activity_log` and `telegram_get_conflicts` are not modelled. They only format text for display.
- `tg_notify` and `_notify_conflict` are left out; they are network messages.
- `_process_queue`, the asyncio wiring, `is_allowed`, the help texts and the reply keyboards are left out. No shown code fills the task queue, so the queue is a session field that only cancel changes.
- The `msg_to_*` awaiting states are left out. The content-team bot sets them from buttons, but its text handler never reads them.
- The "done today" section of `get_summary_for_user` (lines 270-289) depends on file modification times and is left out, as is `get_status_text`. The two sections that only shape lists are modelled.
- Reply texts are modelled as `Action` values rather than their Markdown strings. Where the text carries data (the resolve count, the note body, the summary lines) the value is modelled.
- LLM prompt assembly in `generate_blog_draft` and `revise_blog_draft` is left out.
- Floating-point MAL scores are opaque values copied from the reply.
- Mapping a file path to its stem is left out; the bots' keyboards and summaries take the stems.
- Tistory.HandleAlerts: models "no alert present" as the end of the alert list. An alert whose text is None counts as the empty text, as in the source.
- BotCommon.ScriptResult: which exceptions the process layer raises is not modelled; a raised exception is one of the run outcomes passed in, with its text.
- Tistory.WaitForKeyword: replies are taken to be JSON objects that carry a "description" when "ok" is false. A reply without one, or one that is not an object, raises in the source and escapes the wait; that is not modelled.
- Text.PyInt: accepts ASCII digits only. Python's `int()` also accepts every other Unicode decimal digit ("view_٣" gives 3), which the model rejects.
- ApiParse.LeadingDigits: `\d` is the ASCII digit class here. Python's `\d` also matches other Unicode decimal digits, so a line starting with "１" parses in the source and not in the model.
- Splitting the draft into lines is taken as given: `str.splitlines()` and its set of line breaks are not modelled.
- The image lookup of `read_first_post` (lines 646-665: the first image link in the raw draft, else an image named after the file stem) is left out, because it depends on which files exist.
- BotCommon.CountWithin: the Python window test `now - t < 60` is on floats; here it is on integer ticks.
- GeneratePost.ImageExtension: models the `urlparse` path and `PurePath.suffix` rules that matter for http(s) URLs: the clean-up (leading controls and spaces stripped, tab, CR and LF deleted), the scheme, the netloc, the query, the fragment, the `;params` of the last segment, and the "."/empty components. It does not model the `ValueError` that `urlsplit` raises for a netloc with an unbalanced "[" or "]", an invalid bracketed host, or a non-ASCII netloc whose NFKC form holds "/", "?", "#", "@" or ":"; for such a URL the source's `collect_images` raises, while the model gives an extension. `ExtensionOfFileUrl`, `FileUrlPath` and `NameOfFileUrl` are therefore stated for https file URLs with ASCII hosts without brackets, where `urlsplit` does not raise.
- FetchAnime.FetchSeasonal: assumes requests 2.27 or later, where the decoding error of `resp.json()` is a `RequestException`. The `json.JSONDecodeError` clause (fetch_anime.py lines 106-107) is then never reached, and an undecodable reply gives the request-failure message.
- ApiParse.ShortCategory: models `[가-힣A-Za-z/]` with the same Hangul syllable range as the source. `SplitSpec` finds the match of `내\s` by the `str.isspace` set.
