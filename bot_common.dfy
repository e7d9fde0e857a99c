/**
 * What the two Telegram bots (the content-team bot and the Atlas bot) share, line for line:
 * the API-call rate check over a bounded buffer of call times, the draft-list keyboard,
 * callback-index handling, script-output truncation, the list shaping of the summary, the
 * per-chat session the text handler updates, and the common tail of the text router.
 * Wall-clock time is an integer tick passed in; the filesystem is the set of existing paths
 * (or a map from path to contents where a file is read).
 */
module BotCommon {
  import opened Wrappers
  import opened Text

  function Min(a: int, b: int): int { if a < b then a else b }
  function Max(a: int, b: int): int { if a < b then b else a }

  // ---------------------------------------------------------------- rate limit

  const RecentWindow := 60
  const BurstWindow := 5
  const SafeRecent := 8
  const SafeBurst := 2
  /** `deque(maxlen=20)` of call times. */
  const CallBufferSize := 20

  /** `sum(1 for t in times if now - t < window)`. */
  function CountWithin(times: seq<int>, now: int, window: int): (r: nat)
    ensures r <= |times|
  {
    if |times| == 0 then 0
    else CountWithin(times[..|times| - 1], now, window) + (if now - times[|times| - 1] < window then 1 else 0)
  }

  /** A wider window never counts fewer calls. */
  lemma {:induction false} CountWithinMonotone(times: seq<int>, now: int, narrow: int, wide: int)
    requires narrow <= wide
    ensures CountWithin(times, now, narrow) <= CountWithin(times, now, wide)
  {
    if |times| > 0 {
      CountWithinMonotone(times[..|times| - 1], now, narrow, wide);
    }
  }

  /** The count over a buffer with one more call at the end. */
  lemma CountWithinAppend(times: seq<int>, t: int, now: int, window: int)
    ensures CountWithin(times + [t], now, window)
         == CountWithin(times, now, window) + (if now - t < window then 1 else 0)
  {
    assert (times + [t])[..|times|] == times;
  }

  datatype RateStatus = RateStatus(recent60: nat, burst5: nat, safe: bool, recommendedDelay: int)

  /** `max(QUEUE_DELAY, 60 // max(1, 8 - recent))`. */
  function RecommendedDelay(recent: nat, queueDelay: int): (d: int)
    ensures d >= queueDelay
    ensures recent >= SafeRecent ==> d == Max(queueDelay, 60)
    ensures d <= Max(queueDelay, 60)
  {
    Max(queueDelay, 60 / Max(1, SafeRecent - recent))
  }

  lemma MulMonotone(a: int, y: int, x: int)
    requires a >= 0 && y <= x
    ensures a * y <= a * x
  {
  }

  /** Floor division of 60 shrinks as the divisor grows. */
  lemma DivAntitone(x: int, y: int)
    requires 1 <= y <= x
    ensures 60 / x <= 60 / y
  {
    var qx, qy := 60 / x, 60 / y;
    MulMonotone(qx, y, x);
    assert qx * x <= 60 < (qy + 1) * y;
    assert (qx - (qy + 1)) * y < 0;
  }

  /** More recent calls never shorten the recommended delay. */
  lemma DelayMonotone(a: nat, b: nat, queueDelay: int)
    requires a <= b
    ensures RecommendedDelay(a, queueDelay) <= RecommendedDelay(b, queueDelay)
  {
    DivAntitone(Max(1, SafeRecent - a), Max(1, SafeRecent - b));
  }

  /** `_check_rate_limit_status`. */
  function RateLimitStatus(times: seq<int>, now: int, queueDelay: int): (r: RateStatus)
    ensures r.recent60 == CountWithin(times, now, RecentWindow)
    ensures r.burst5 == CountWithin(times, now, BurstWindow)
    ensures r.burst5 <= r.recent60 <= |times|
    ensures r.safe <==> r.recent60 < SafeRecent && r.burst5 < SafeBurst
    ensures r.recommendedDelay >= queueDelay
    ensures r.recent60 >= SafeRecent ==> r.recommendedDelay == Max(queueDelay, 60)
  {
    CountWithinMonotone(times, now, BurstWindow, RecentWindow);
    var recent := CountWithin(times, now, RecentWindow);
    var burst := CountWithin(times, now, BurstWindow);
    RateStatus(recent, burst, recent < SafeRecent && burst < SafeBurst, RecommendedDelay(recent, queueDelay))
  }

  /** Two calls in the same tick are a burst: the status is not safe. */
  lemma TwoCallsNowUnsafe(times: seq<int>, now: int, queueDelay: int)
    requires |times| >= 2 && times[|times| - 1] == now && times[|times| - 2] == now
    ensures !RateLimitStatus(times, now, queueDelay).safe
  {
    var n := |times|;
    var front := times[..n - 1];
    assert front[..n - 2] == times[..n - 2];
    assert front[|front| - 1] == now;
    assert CountWithin(times, now, BurstWindow) == CountWithin(times[..n - 2], now, BurstWindow) + 2;
  }

  /** `deque.append` on a buffer bounded at 20: a full buffer drops its oldest entry. */
  function PushBounded(times: seq<int>, t: int): (r: seq<int>)
    requires |times| <= CallBufferSize
    ensures 0 < |r| <= CallBufferSize && r[|r| - 1] == t
    ensures |times| < CallBufferSize ==> r == times + [t]
    ensures |times| == CallBufferSize ==> r == times[1..] + [t]
  {
    TakeLast(times + [t], CallBufferSize)
  }

  /** The module-level `_api_call_times` buffer with `_record_api_call` and the rate check. */
  class CallLog {
    var times: seq<int>

    ghost predicate Valid()
      reads this
    {
      |times| <= CallBufferSize
    }

    constructor ()
      ensures Valid() && times == []
    {
      times := [];
    }

    /** `_record_api_call` at tick `now`. */
    method Record(now: int)
      requires Valid()
      modifies this
      ensures Valid()
      ensures times == PushBounded(old(times), now)
    {
      times := PushBounded(times, now);
    }

    /** `_check_rate_limit_status` at tick `now`: never more than 20 recent calls. */
    function Status(now: int, queueDelay: int): (r: RateStatus)
      reads this
      requires Valid()
      ensures r.burst5 <= r.recent60 <= CallBufferSize
      ensures r.safe <==> r.recent60 < SafeRecent && r.burst5 < SafeBurst
    {
      RateLimitStatus(times, now, queueDelay)
    }
  }

  // ---------------------------------------------------------------- draft keyboard

  datatype Button = Button(caption: string, callback: string)

  const MaxDraftRows := 8
  const MenuRow := [Button("🏠 메인 메뉴", "menu")]

  /** The row for the `i`-th draft: a view button and a delete button. */
  function DraftRow(i: nat, stem: string): seq<Button> {
    [Button("📄 " + TakeFirst(stem, 28), "view_" + NatToString(i)),
     Button("🗑️ 삭제", "del_" + NatToString(i))]
  }

  /** `draft_list_keyboard`, given the file stems in list order. */
  method DraftListKeyboard(stems: seq<string>) returns (keyboard: seq<seq<Button>>)
    ensures |keyboard| == Min(|stems|, MaxDraftRows) + 1
    ensures forall i :: 0 <= i < |keyboard| - 1 ==> keyboard[i] == DraftRow(i, stems[i])
    ensures keyboard[|keyboard| - 1] == MenuRow
  {
    var shown := TakeFirst(stems, MaxDraftRows);
    keyboard := [];
    var i := 0;
    while i < |shown|
      invariant 0 <= i <= |shown|
      invariant |keyboard| == i
      invariant forall j :: 0 <= j < i ==> keyboard[j] == DraftRow(j, stems[j])
    {
      keyboard := keyboard + [DraftRow(i, shown[i])];
      i := i + 1;
    }
    keyboard := keyboard + [MenuRow];
  }

  // ---------------------------------------------------------------- callback indexes

  /** `int(data.split("_")[1])`; `None` where Python raises (no second part, or no number). */
  function CallbackIndex(data: string): (r: Option<int>)
    ensures r.Some? ==> '_' in data
  {
    var parts := Split(data, '_');
    if '_' !in data then
      SplitNoSep(data, '_');
      None
    else if |parts| < 2 then None
    else PyInt(parts[1])
  }

  /** The callback a button carries (`view_<n>`, `del_<n>`, `revise_<n>`) parses back to `n`. */
  lemma CallbackRoundTrip(prefix: string, n: nat)
    requires |prefix| > 0 && prefix[|prefix| - 1] == '_' && '_' !in prefix[..|prefix| - 1]
    ensures CallbackIndex(prefix + NatToString(n)) == Some(n)
  {
    var head := prefix[..|prefix| - 1];
    var digits := NatToString(n);
    assert forall k :: 0 <= k < |digits| ==> IsDigit(digits[k]);
    assert '_' !in digits;
    assert prefix == head + ['_'];
    assert prefix + digits == head + ['_'] + digits;
    SplitAt(head, '_', digits);
    SplitNoSep(digits, '_');
    assert (prefix + digits)[|head|] == '_';
    PyIntNatToString(n);
  }

  /** Python's `xs[i]`: a negative index counts from the end; `None` for `IndexError`. */
  function PyIndex<T>(xs: seq<T>, i: int): (r: Option<T>)
    ensures r.Some? <==> -|xs| <= i < |xs|
  {
    if 0 <= i < |xs| then Some(xs[i])
    else if -|xs| <= i < 0 then Some(xs[|xs| + i])
    else None
  }

  /** Every row of the keyboard opens the draft it shows and deletes that same draft. */
  lemma KeyboardCallbacksResolve(stems: seq<string>, i: nat)
    requires i < Min(|stems|, MaxDraftRows)
    ensures CallbackIndex(DraftRow(i, stems[i])[0].callback) == Some(i)
    ensures CallbackIndex(DraftRow(i, stems[i])[1].callback) == Some(i)
    ensures PyIndex(stems, i) == Some(stems[i])
  {
    CallbackRoundTrip("view_", i);
    CallbackRoundTrip("del_", i);
  }

  const PreviewLimit := 1800
  const PreviewEllipsis := "...\n\n[이하 생략]"

  /** `content[:1800]` plus an ellipsis when the draft is longer. */
  function Preview(content: string): (r: string)
    ensures TakeFirst(content, PreviewLimit) <= r
    ensures |r| <= PreviewLimit + |PreviewEllipsis|
    ensures |content| <= PreviewLimit ==> r == content
  {
    TakeFirst(content, PreviewLimit) + (if |content| > PreviewLimit then PreviewEllipsis else "")
  }

  datatype ViewOutcome =
    | ViewCrashed
    | ViewNotFound
    | ViewDeleted
    | ViewShown(path: string, preview: string, reviseCallback: string)

  /** The `view_<k>` callback: `files` is the session's draft list, `disk` maps each existing path to its text. */
  function ViewDraft(data: string, files: seq<string>, disk: map<string, string>): (r: ViewOutcome)
    ensures r.ViewShown? ==> r.path in files && r.path in disk && r.preview == Preview(disk[r.path])
    ensures r.ViewShown? ==> CallbackIndex(data).Some? && CallbackIndex(data).value < |files|
    ensures CallbackIndex(data).Some? && CallbackIndex(data).value >= |files| ==> r == ViewNotFound
    ensures r == ViewCrashed <==> CallbackIndex(data).None? || CallbackIndex(data).value < -|files|
  {
    match CallbackIndex(data)
    case None => ViewCrashed
    case Some(idx) =>
      if idx >= |files| then ViewNotFound
      else
        match PyIndex(files, idx)
        case None => ViewCrashed
        case Some(p) =>
          if p !in disk then ViewDeleted
          else ViewShown(p, Preview(disk[p]), "revise_" + IntToString(idx))
  }

  /** Viewing a listed draft that still exists shows it, with a revise button that names the same index. */
  lemma ViewListedDraft(n: nat, files: seq<string>, disk: map<string, string>)
    requires n < |files| && files[n] in disk
    ensures ViewDraft("view_" + NatToString(n), files, disk)
         == ViewShown(files[n], Preview(disk[files[n]]), "revise_" + NatToString(n))
  {
    CallbackRoundTrip("view_", n);
  }

  datatype DeleteOutcome = DeleteCrashed | Unlinked(path: string) | NothingUnlinked

  /** The `del_<k>` callback: which file is unlinked, if any. */
  function DeleteDraft(data: string, files: seq<string>, disk: set<string>): (r: DeleteOutcome)
    ensures r.Unlinked? ==> r.path in files && r.path in disk
    ensures r.Unlinked? ==> CallbackIndex(data).Some? && CallbackIndex(data).value < |files|
    ensures CallbackIndex(data).Some? && CallbackIndex(data).value >= |files| ==> r == NothingUnlinked
  {
    match CallbackIndex(data)
    case None => DeleteCrashed
    case Some(idx) =>
      if idx < |files| then
        match PyIndex(files, idx)
        case None => DeleteCrashed
        case Some(p) => if p in disk then Unlinked(p) else NothingUnlinked
      else NothingUnlinked
  }

  /** Deleting a listed draft that exists unlinks exactly that draft. */
  lemma DeleteListedDraft(n: nat, files: seq<string>, disk: set<string>)
    requires n < |files| && files[n] in disk
    ensures DeleteDraft("del_" + NatToString(n), files, disk) == Unlinked(files[n])
  {
    CallbackRoundTrip("del_", n);
  }

  /** `int(data.split("_")[1]) if "_" in data and data != "revise" else 0`. */
  function ReviseCallbackIndex(data: string): (r: Option<int>)
    ensures data == "revise" ==> r == Some(0)
    ensures '_' !in data ==> r == Some(0)
  {
    if '_' in data && data != "revise" then CallbackIndex(data) else Some(0)
  }

  /** `revise_<k>` selects draft `k`. */
  lemma ReviseIndexRoundTrip(n: nat)
    ensures ReviseCallbackIndex("revise_" + NatToString(n)) == Some(n)
  {
    CallbackRoundTrip("revise_", n);
    var data := "revise_" + NatToString(n);
    assert data[6] == '_';
    assert data != "revise";
  }

  datatype RevisePrompt = RevisePromptCrashed | RevisePromptFor(target: string)

  const DefaultDraftName := "초안"

  /** The name shown in the revise prompt: the chosen draft, or "초안" past the end of the list. */
  function RevisePromptTarget(files: seq<string>, idx: int): (r: RevisePrompt)
    ensures 0 <= idx < |files| ==> r == RevisePromptFor(files[idx])
    ensures idx >= |files| ==> r == RevisePromptFor(DefaultDraftName)
    ensures r == RevisePromptCrashed <==> idx < -|files|
  {
    if idx < |files| then
      match PyIndex(files, idx)
      case None => RevisePromptCrashed
      case Some(p) => RevisePromptFor(p)
    else RevisePromptFor(DefaultDraftName)
  }

  // ---------------------------------------------------------------- run_script

  datatype ScriptRun =
    | ScriptMissing(path: string)
    | TimedOut
    | Exited(code: int, stdout: string, stderr: string)
    | Raised(error: string)

  const OutputLimit := 1500

  /** `output[-1500:] if len(output) > 1500 else output`: the last 1500 characters. */
  function TruncateOutput(output: string): (r: string)
    ensures |r| == Min(|output|, OutputLimit)
    ensures r == output[|output| - |r|..]
  {
    if |output| > OutputLimit then output[|output| - OutputLimit..] else output
  }

  /** `run_script`'s `(ok, output)` for each way the subprocess can end. */
  function ScriptResult(run: ScriptRun): (r: (bool, string))
    ensures r.0 <==> run.Exited? && run.code == 0
    ensures run.Exited? ==> r.1 == TruncateOutput(Strip(run.stdout + run.stderr))
    ensures run.TimedOut? ==> r.1 == "⏱️ 실행 시간 초과 (5분)"
    ensures run.ScriptMissing? ==> r.1 == "스크립트 없음: " + run.path
    ensures run.Raised? ==> r.1 == "실행 오류: " + run.error
  {
    match run
    case ScriptMissing(p) => (false, "스크립트 없음: " + p)
    case TimedOut => (false, "⏱️ 실행 시간 초과 (5분)")
    case Exited(code, out, err) => (code == 0, TruncateOutput(Strip(out + err)))
    case Raised(e) => (false, "실행 오류: " + e)
  }

  // ---------------------------------------------------------------- summary lists

  const PendingShown := 10
  const DoneShown := 10

  function Bullet(stem: string): string { "  • " + TakeFirst(stem, 45) }

  /** The "포스팅 대기" part of `get_summary_for_user`: at most ten drafts, then a count of the rest. */
  method PendingSection(pending: seq<string>) returns (lines: seq<string>)
    ensures |lines| == 1 + Min(|pending|, PendingShown) + (if |pending| > PendingShown then 1 else 0)
    ensures lines[0] == "📝 *포스팅 대기* (" + NatToString(|pending|) + "개)"
    ensures forall i :: 0 <= i < Min(|pending|, PendingShown) ==> lines[1 + i] == Bullet(pending[i])
    ensures |pending| > PendingShown ==>
      lines[|lines| - 1] == "  ... 외 " + NatToString(|pending| - PendingShown) + "개"
  {
    var header := "📝 *포스팅 대기* (" + NatToString(|pending|) + "개)";
    lines := [header];
    var shown := TakeFirst(pending, PendingShown);
    var i := 0;
    while i < |shown|
      invariant 0 <= i <= |shown| == Min(|pending|, PendingShown)
      invariant |lines| == 1 + i && lines[0] == header
      invariant forall j :: 0 <= j < i ==> lines[1 + j] == Bullet(pending[j])
    {
      lines := lines + [Bullet(shown[i])];
      i := i + 1;
    }
    if |pending| > PendingShown {
      lines := lines + ["  ... 외 " + NatToString(|pending| - PendingShown) + "개"];
    }
  }

  /**
   * The "게시 완료" part: the last ten of the name-sorted list of finished posts, in
   * reverse order, then a blank line. The files are named by slug, so despite the
   * "최근 10개" heading these are not the ten latest by time.
   */
  method DoneSection(done: seq<string>) returns (lines: seq<string>)
    ensures |lines| == 2 + Min(|done|, DoneShown)
    ensures lines[0] == "✅ *게시 완료* (총 " + NatToString(|done|) + "개, 최근 10개)"
    ensures forall i :: 1 <= i <= Min(|done|, DoneShown) ==> lines[i] == Bullet(done[|done| - i])
    ensures lines[|lines| - 1] == ""
  {
    var header := "✅ *게시 완료* (총 " + NatToString(|done|) + "개, 최근 10개)";
    lines := [header];
    var recent := TakeLast(done, DoneShown);
    var i := 0;
    while i < |recent|
      invariant 0 <= i <= |recent| == Min(|done|, DoneShown)
      invariant |lines| == 1 + i && lines[0] == header
      invariant forall j :: 1 <= j <= i ==> lines[j] == Bullet(done[|done| - j])
    {
      var item := recent[|recent| - 1 - i];
      assert item == done[|done| - 1 - i];
      lines := lines + [Bullet(item)];
      i := i + 1;
    }
    lines := lines + [""];
  }

  // ---------------------------------------------------------------- text routing

  /** `any(k in text for k in keys)`. */
  predicate AnyIn(text: string, keys: seq<string>) {
    exists i :: 0 <= i < |keys| && Contains(text, keys[i])
  }

  lemma AnyInAt(text: string, keys: seq<string>, i: nat)
    requires i < |keys| && Contains(text, keys[i])
    ensures AnyIn(text, keys)
  {
  }

  const QueueKeys := ["큐", "queue", "rate limit", "rate", "리밋", "limit", "대기 현황", "api 상태"]
  const CancelKeys := ["큐 취소", "queue cancel", "작업 취소", "취소"]
  const ConfirmWords := ["인증완료", "포스팅"]
  const SummaryKeys := ["목록", "리스트", "list", "발행", "게시", "published", "post",
                        "요약", "summary", "상태", "status", "현황", "어떤", "몇 개",
                        "오늘", "today", "완료", "대기", "초안"]
  const ReviseInstruction := "revise_instruction"

  /** `_wants_summary`: keyword search on the lower-cased, stripped text. */
  predicate WantsSummary(text: string) {
    SummaryQuery(AsciiLower(Strip(text)))
  }

  predicate SummaryQuery(t: string) {
    AnyIn(t, SummaryKeys) || Contains(t, "tell me") || (Contains(t, "what") && Contains(t, "post"))
  }

  /** The `"what" in t and "post" in t` clause adds nothing: "post" is a keyword already. */
  lemma WhatPostRedundant(t: string)
    ensures SummaryQuery(t) <==> AnyIn(t, SummaryKeys) || Contains(t, "tell me")
  {
    if Contains(t, "post") {
      AnyInAt(t, SummaryKeys, 6);
    }
  }

  datatype Route =
    | Help | Resolve | Conflicts | SharedStatus | Note | ActivityLog
    | QueueStatus | Cancel | Confirm | Revise | Summary | Other

  /**
   * The routing both bots end with, and all of the Atlas bot's: queue status, queue cancel,
   * the posting-confirmation words, a pending revise instruction, a summary request, anything else.
   */
  function TailRoute(text: string, awaiting: Option<string>): (r: Route)
    ensures r in {QueueStatus, Cancel, Confirm, Revise, Summary, Other}
    ensures r == Revise ==> awaiting == Some(ReviseInstruction)
    ensures AnyIn(text, QueueKeys) <==> r == QueueStatus
  {
    if AnyIn(text, QueueKeys) then QueueStatus
    else if AnyIn(text, CancelKeys) then Cancel
    else if text in ConfirmWords then Confirm
    else if awaiting == Some(ReviseInstruction) then Revise
    else if WantsSummary(text) then Summary
    else Other
  }

  /** Text holding a phrase that holds a queue keyword holds a queue keyword. */
  lemma QueueKeyWithin(text: string, phrase: string, i: nat)
    requires i < |QueueKeys| && Contains(text, phrase) && Contains(phrase, QueueKeys[i])
    ensures AnyIn(text, QueueKeys)
  {
    ContainsTrans(text, phrase, QueueKeys[i]);
    AnyInAt(text, QueueKeys, i);
  }

  /**
   * The first two cancel keywords, "큐 취소" and "queue cancel", hold a queue keyword: text with
   * either shows the queue status and never clears the queue.
   */
  lemma QueueCancelNeverClears(text: string, awaiting: Option<string>, k: nat)
    requires k < 2 && Contains(text, CancelKeys[k])
    ensures TailRoute(text, awaiting) == QueueStatus
  {
    if k == 0 {
      ContainsAt("큐 취소", "큐", 0);
      QueueKeyWithin(text, "큐 취소", 0);
    } else {
      ContainsAt("queue cancel", "queue", 0);
      QueueKeyWithin(text, "queue cancel", 1);
    }
  }

  /** Only text holding "취소" (and no queue keyword) cancels: the first two cancel keywords are unreachable. */
  lemma CancelNeedsChwiso(text: string, awaiting: Option<string>)
    requires TailRoute(text, awaiting) == Cancel
    ensures Contains(text, "취소") && !AnyIn(text, QueueKeys)
  {
    var i :| 0 <= i < |CancelKeys| && Contains(text, CancelKeys[i]);
    if i < 2 {
      QueueCancelNeverClears(text, awaiting, i);
    } else if i == 2 {
      ContainsAt("작업 취소", "취소", 3);
      ContainsTrans(text, "작업 취소", "취소");
    }
  }

  /** A pending revise instruction is taken unless a keyword or a confirmation word comes first. */
  lemma AwaitingReviseTaken(text: string)
    requires !AnyIn(text, QueueKeys) && !AnyIn(text, CancelKeys) && text !in ConfirmWords
    ensures TailRoute(text, Some(ReviseInstruction)) == Revise
  {
  }

  // ---------------------------------------------------------------- session

  datatype Action =
    | ShowHelp | ResolveConflicts | ShowConflicts | ShowSharedStatus
    | NoteAdded(body: string) | NoteEmpty
    | ShowActivityLog
    | ShowQueueStatus(queued: nat)
    | QueueCleared(cancelled: nat)
    | ConfirmReceived(word: string)
    | ReviseNotFound | ReviseFileDeleted | ReviseCrashed
    | RunRevise(path: string, instruction: string)
    | ShowSummary | Acknowledged

  /** `text.split(":", 1)[1].strip()`: what follows the first colon. */
  function NoteBody(text: string): (r: string)
    requires ':' in text
  {
    var parts := Split(text, ':');
    Strip(Join([':'], parts[1..]))
  }

  /** For a note command the body is what follows the command's own colon. */
  lemma NoteBodyAfterPrefix(prefix: string, rest: string)
    requires ':' !in prefix
    ensures ':' in prefix + ":" + rest
    ensures NoteBody(prefix + ":" + rest) == Strip(rest)
  {
    var text := prefix + ":" + rest;
    assert text == prefix + [':'] + rest;
    assert text[|prefix|] == ':';
    SplitAt(prefix, ':', rest);
    JoinSplit(rest, ':');
  }

  /**
   * The revise-instruction step of the text handler, once the flag is cleared: the draft at
   * `revise_idx` (default 0) is regenerated with the message as the instruction.
   */
  function ReviseAction(text: string, reviseIdx: Option<int>, files: seq<string>, disk: set<string>): (r: Action)
    ensures r in {ReviseNotFound, ReviseFileDeleted, ReviseCrashed} || r.RunRevise?
    ensures r.RunRevise? ==> r.path in files && r.path in disk && r.instruction == text
    ensures |files| == 0 || reviseIdx.GetOr(0) >= |files| ==> r == ReviseNotFound
    ensures 0 <= reviseIdx.GetOr(0) < |files| && files[reviseIdx.GetOr(0)] in disk ==>
      r == RunRevise(files[reviseIdx.GetOr(0)], text)
  {
    var idx := reviseIdx.GetOr(0);
    if |files| == 0 || idx >= |files| then ReviseNotFound
    else
      match PyIndex(files, idx)
      case None => ReviseCrashed
      case Some(p) => if p !in disk then ReviseFileDeleted else RunRevise(p, text)
  }

  /** What the text handler replies or does for a route, given the session's state before it. */
  function Respond(route: Route, text: string, queue: seq<string>, reviseIdx: Option<int>,
                   files: seq<string>, disk: set<string>): Action
  {
    match route
    case Help => ShowHelp
    case Resolve => ResolveConflicts
    case Conflicts => ShowConflicts
    case SharedStatus => ShowSharedStatus
    case Note => if ':' in text && NoteBody(text) != "" then NoteAdded(NoteBody(text)) else NoteEmpty
    case ActivityLog => ShowActivityLog
    case QueueStatus => ShowQueueStatus(|queue|)
    case Cancel => QueueCleared(|queue|)
    case Confirm => ConfirmReceived(text)
    case Revise => ReviseAction(text, reviseIdx, files, disk)
    case Summary => ShowSummary
    case Other => Acknowledged
  }

  /** Choosing draft `n` with its revise button and then sending an instruction regenerates draft `n`. */
  lemma ReviseFlow(n: nat, text: string, queue: seq<string>, files: seq<string>, disk: set<string>)
    requires n < |files| && files[n] in disk
    ensures Respond(Revise, text, queue, ReviseCallbackIndex("revise_" + NatToString(n)), files, disk)
         == RunRevise(files[n], text)
  {
    ReviseIndexRoundTrip(n);
  }

  /**
   * One chat's `context.user_data` (the awaiting flag, the chosen revise index, the listed
   * drafts) together with the bot's task queue.
   */
  class Session {
    var awaiting: Option<string>
    var reviseIdx: Option<int>
    var mdFiles: seq<string>
    var queue: seq<string>

    constructor ()
      ensures awaiting == None && reviseIdx == None && mdFiles == [] && queue == []
    {
      awaiting := None;
      reviseIdx := None;
      mdFiles := [];
      queue := [];
    }

    /**
     * The `revise` / `revise_<k>` callback: remember the index and wait for an instruction.
     * When the index does not parse, Python raises before anything is stored.
     */
    method OnReviseCallback(data: string) returns (prompt: RevisePrompt)
      modifies this
      ensures ReviseCallbackIndex(data).None? ==>
        prompt == RevisePromptCrashed && awaiting == old(awaiting) && reviseIdx == old(reviseIdx)
      ensures ReviseCallbackIndex(data).Some? ==>
        awaiting == Some(ReviseInstruction) && reviseIdx == ReviseCallbackIndex(data)
        && prompt == RevisePromptTarget(mdFiles, ReviseCallbackIndex(data).value)
      ensures mdFiles == old(mdFiles) && queue == old(queue)
    {
      var idx := ReviseCallbackIndex(data);
      if idx.None? {
        return RevisePromptCrashed;
      }
      reviseIdx := idx;
      awaiting := Some(ReviseInstruction);
      prompt := RevisePromptTarget(mdFiles, idx.value);
    }

    /** The handler's effect for a route: cancel empties the queue, a revise instruction clears the flag. */
    method Dispatch(route: Route, text: string, disk: set<string>) returns (action: Action)
      modifies this
      ensures action == Respond(route, text, old(queue), old(reviseIdx), old(mdFiles), disk)
      ensures queue == if route == Cancel then [] else old(queue)
      ensures awaiting == if route == Revise then None else old(awaiting)
      ensures reviseIdx == old(reviseIdx) && mdFiles == old(mdFiles)
    {
      action := Respond(route, text, queue, reviseIdx, mdFiles, disk);
      if route == Cancel {
        queue := [];
      } else if route == Revise {
        awaiting := None;
      }
    }
  }
}
