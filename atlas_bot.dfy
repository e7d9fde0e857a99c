/**
 * The Atlas bot's text handler: exactly the routing tail it shares with the content-team bot
 * (queue status, cancel, confirmation words, a pending revise instruction, summary, anything else).
 */
module AtlasBot {
  import opened Wrappers
  import opened Text
  import opened BotCommon

  /** `text_handler` for one message: the action, the queue emptied on cancel, the revise flag cleared. */
  method HandleText(session: Session, message: string, disk: set<string>) returns (action: Action)
    modifies session
    ensures var text := Strip(message);
      var route := TailRoute(text, old(session.awaiting));
      && action == Respond(route, text, old(session.queue), old(session.reviseIdx), old(session.mdFiles), disk)
      && session.queue == (if route == Cancel then [] else old(session.queue))
      && session.awaiting == (if route == Revise then None else old(session.awaiting))
    ensures session.reviseIdx == old(session.reviseIdx) && session.mdFiles == old(session.mdFiles)
  {
    var text := Strip(message);
    action := session.Dispatch(TailRoute(text, session.awaiting), text, disk);
  }

  /** No Atlas message is ever a help, conflict, status, note or log request. */
  lemma OnlyTailRoutes(text: string, awaiting: Option<string>)
    ensures !(TailRoute(text, awaiting) in {Help, Resolve, Conflicts, SharedStatus, Note, ActivityLog})
  {
  }
}
