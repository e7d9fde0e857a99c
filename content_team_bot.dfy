/**
 * The content-team bot's text handler: its own keyword routes (help, conflicts, the shared
 * work status, notes, the activity log) come ahead of the routing it shares with the Atlas bot.
 */
module ContentTeamBot {
  import opened Wrappers
  import opened Text
  import opened BotCommon

  const HelpWords := ["/?", "/help", "?"]
  const HelpKeys := ["명령어", "도움말", "help", "사용법", "사용 방법"]
  const ResolveKeys := ["충돌 해제", "conflict resolve", "충돌해제", "강제 진행"]
  const ConflictKeys := ["충돌", "conflict", "충돌 확인"]
  const SharedKeys := ["공유 현황", "클로드 상태", "claude 상태", "코드 현황", "지금 뭐해", "뭐하고 있어"]
  const LogKeys := ["활동 로그", "activity log", "로그", "작업 내역"]

  predicate WantsHelp(text: string) { text in HelpWords || AnyIn(text, HelpKeys) }

  predicate IsNote(text: string) { StartsWith(text, "메모:") || StartsWith(text, "note:") }

  /** The order in which `text_handler` tries its branches on the stripped message. */
  function Route(text: string, awaiting: Option<string>): (r: Route)
    ensures WantsHelp(text) <==> r == Help
    ensures r == Revise ==> awaiting == Some(ReviseInstruction)
    ensures r == Note ==> IsNote(text)
  {
    if WantsHelp(text) then Help
    else if AnyIn(text, ResolveKeys) then Resolve
    else if AnyIn(text, ConflictKeys) then Conflicts
    else if AnyIn(text, SharedKeys) then SharedStatus
    else if IsNote(text) then Note
    else if AnyIn(text, LogKeys) then ActivityLog
    else TailRoute(text, awaiting)
  }

  /** "충돌 해제" also holds "충돌", so only the earlier check makes it resolve rather than list. */
  lemma ResolveBeforeConflicts(text: string, awaiting: Option<string>)
    requires !WantsHelp(text) && Contains(text, "충돌 해제")
    ensures Route(text, awaiting) == Resolve
    ensures AnyIn(text, ConflictKeys)
  {
    AnyInAt(text, ResolveKeys, 0);
    ContainsAt("충돌 해제", "충돌", 0);
    ContainsTrans(text, "충돌 해제", "충돌");
    AnyInAt(text, ConflictKeys, 0);
  }

  /** Here too "큐 취소" and "queue cancel" never clear the queue. */
  lemma QueueCancelNeverClearsHere(text: string, awaiting: Option<string>, k: nat)
    requires k < 2 && Contains(text, CancelKeys[k])
    ensures Route(text, awaiting) != Cancel
  {
    QueueCancelNeverClears(text, awaiting, k);
  }

  /**
   * "블로그" (blog) holds the log keyword "로그": an instruction that mentions the blog is never
   * taken as a revise instruction, and the awaiting flag stays set.
   */
  lemma BlogNeverRevises(text: string, awaiting: Option<string>)
    requires Contains(text, "블로그")
    ensures Route(text, awaiting) != Revise
  {
    ContainsAt("블로그", "로그", 1);
    ContainsTrans(text, "블로그", "로그");
    AnyInAt(text, LogKeys, 2);
  }

  /** A note command hands on what follows its colon, stripped; an empty note is dropped. */
  lemma NoteCarriesBody(rest: string, awaiting: Option<string>, queue: seq<string>,
                        reviseIdx: Option<int>, files: seq<string>, disk: set<string>)
    ensures var text := "메모:" + rest;
      Respond(Note, text, queue, reviseIdx, files, disk)
        == if Strip(rest) == "" then NoteEmpty else NoteAdded(Strip(rest))
  {
    assert "메모:" + rest == "메모" + ":" + rest;
    NoteBodyAfterPrefix("메모", rest);
  }

  /**
   * `text_handler` for one message (`""` when the update carries no text): the reply or action,
   * the queue emptied on cancel, the awaiting flag cleared by a revise instruction.
   */
  method HandleText(session: Session, message: string, disk: set<string>) returns (action: Action)
    modifies session
    ensures var text := Strip(message);
      var route := Route(text, old(session.awaiting));
      && action == Respond(route, text, old(session.queue), old(session.reviseIdx), old(session.mdFiles), disk)
      && session.queue == (if route == Cancel then [] else old(session.queue))
      && session.awaiting == (if route == Revise then None else old(session.awaiting))
    ensures session.reviseIdx == old(session.reviseIdx) && session.mdFiles == old(session.mdFiles)
  {
    var text := Strip(message);
    action := session.Dispatch(Route(text, session.awaiting), text, disk);
  }
}
