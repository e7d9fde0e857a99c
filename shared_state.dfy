/**
 * The coordination store that the coding tools and the Telegram bot share
 * (`shared_state.py`): one record per actor, the unresolved conflicts, one inbox per
 * recipient, the last completion, the shared notes, and the two side histories
 * (the activity log and the conflict history), each trimmed to a fixed length.
 *
 * Every public operation of the source loads the state file, changes it and saves it
 * back; here the loaded state is the fields of one `Store` object and each operation
 * is a method that changes those fields. Timestamps are opaque values passed in.
 */
module SharedState {
  import opened Wrappers
  import opened Text

  type Timestamp = string

  datatype Actor = Claude | Cursor | TelegramBot

  const AllActors: set<Actor> := {Claude, Cursor, TelegramBot}

  /** The order in which the actors appear in the stored `actors` dictionary. */
  const ActorOrder: seq<Actor> := [Claude, Cursor, TelegramBot]

  function ActorName(a: Actor): string {
    match a
    case Claude => "claude_code"
    case Cursor => "cursor_ai"
    case TelegramBot => "telegram_bot"
  }

  datatype Status = Idle | Running | Waiting | Done | Error

  datatype Severity = Info | Warning | Critical

  datatype ActorState = ActorState(
    status: Status,
    action: Option<string>,
    targetFiles: seq<string>,
    progress: Option<string>,
    detail: Option<string>,
    startedAt: Option<Timestamp>,
    lastActive: Option<Timestamp>,
    sessionNote: Option<string>)

  datatype ConflictKind =
    | FileOverlap(overlapping: seq<string>)
    | ConcurrentEdit(aFiles: seq<string>, bFiles: seq<string>)

  datatype Conflict = Conflict(
    kind: ConflictKind,
    severity: Severity,
    actorA: Actor,
    actorB: Actor,
    actorAAction: Option<string>,
    detectedAt: Timestamp,
    resolved: bool,
    resolvedAt: Option<Timestamp>)

  datatype Message = Message(from: Actor, msg: string, at: Timestamp, read: bool)

  datatype Note = Note(from: Actor, msg: string, at: Timestamp)

  datatype LastCompleted = LastCompleted(
    actor: Option<Actor>, action: Option<string>, result: Option<string>, at: Option<Timestamp>)

  /** What one activity-log entry records besides its time. */
  datatype Event =
    | Started(actor: Actor, action: string, files: seq<string>, detail: string)
    | Finished(actor: Actor, doneAction: Option<string>, result: string)
    | Failed(actor: Actor, error: string)
    | WaitingFor(actor: Actor, reason: string, waitSec: int)
    | ConflictsCleared(count: nat)

  datatype LogEntry = LogEntry(at: Timestamp, event: Event)

  const LogLimit := 200
  const ConflictHistoryLimit := 100
  const NotesLimit := 30
  const InboxLimit := 10
  const ModifiedFilesLimit := 10

  // ---------------------------------------------------------------- conflict rules

  /** `tuple(sorted([a, b]))`: the pair ordered by the actors' names. */
  function SortedPair(a: Actor, b: Actor): (Actor, Actor) {
    if Lt(ActorName(b), ActorName(a)) then (b, a) else (a, b)
  }

  const ConflictRules: map<(Actor, Actor), bool> :=
    map[(Claude, Cursor) := true, (Claude, TelegramBot) := false, (Cursor, TelegramBot) := false]

  /** `CONFLICT_RULES.get(sorted pair, False)`. */
  predicate MayConflict(a: Actor, b: Actor) {
    var p := SortedPair(a, b);
    p in ConflictRules && ConflictRules[p]
  }

  /** How the names order the actors: `claude_code` < `cursor_ai` < `telegram_bot`. */
  lemma ActorNamesOrdered()
    ensures Lt(ActorName(Claude), ActorName(Cursor)) && !Lt(ActorName(Cursor), ActorName(Claude))
    ensures Lt(ActorName(Claude), ActorName(TelegramBot)) && !Lt(ActorName(TelegramBot), ActorName(Claude))
    ensures Lt(ActorName(Cursor), ActorName(TelegramBot)) && !Lt(ActorName(TelegramBot), ActorName(Cursor))
  {
    assert Lt("cursor_ai", "claude_code") == false by {
      assert "cursor_ai"[0] == "claude_code"[0];
      assert "cursor_ai"[1..] == "ursor_ai" && "claude_code"[1..] == "laude_code";
    }
    assert Lt("claude_code", "cursor_ai");
    assert Lt("telegram_bot", "claude_code") == false;
    assert Lt("telegram_bot", "cursor_ai") == false;
    assert Lt("cursor_ai", "telegram_bot");
    assert Lt("claude_code", "telegram_bot");
  }

  /** An actor's place in the order of the names. */
  function NameRank(a: Actor): nat {
    match a
    case Claude => 0
    case Cursor => 1
    case TelegramBot => 2
  }

  /** `sorted` puts the actor with the smaller name first. */
  lemma SortedPairByRank(a: Actor, b: Actor)
    ensures SortedPair(a, b) == if NameRank(b) < NameRank(a) then (b, a) else (a, b)
  {
    ActorNamesOrdered();
    LtIrreflexive(ActorName(a));
    assert Lt(ActorName(b), ActorName(a)) <==> NameRank(b) < NameRank(a);
  }

  /** Of the sorted pairs, the table answers `True` for one only. */
  lemma RuleTable(p: (Actor, Actor))
    ensures (p in ConflictRules && ConflictRules[p]) <==> p == (Claude, Cursor)
  {
  }

  /** The rule table lets exactly the two code-editing tools conflict, in either order. */
  lemma MayConflictExactly(a: Actor, b: Actor)
    ensures MayConflict(a, b) <==> (a, b) == (Claude, Cursor) || (a, b) == (Cursor, Claude)
  {
    SortedPairByRank(a, b);
    RuleTable(SortedPair(a, b));
  }

  // ---------------------------------------------------------------- conflict detection

  /** The elements of `a` that also occur in `b`: `set(a) & set(b)`. */
  function Intersect(a: seq<string>, b: seq<string>): (r: seq<string>)
    ensures Elems(r) == Elems(a) * Elems(b)
  {
    if a == [] then []
    else
      var rest := Intersect(a[1..], b);
      assert Elems(a) == {a[0]} + Elems(a[1..]) by { assert a == [a[0]] + a[1..]; }
      if a[0] in b then
        assert Elems([a[0]] + rest) == {a[0]} + Elems(rest);
        [a[0]] + rest
      else rest
  }

  predicate Active(st: ActorState) { st.status == Running || st.status == Waiting }

  /** The conflict (if any) that one other actor's record causes for a new task. */
  function ConflictWith(other: Actor, st: ActorState, newActor: Actor, newFiles: seq<string>, now: Timestamp)
    : Option<Conflict>
  {
    if other == newActor || !Active(st) || !MayConflict(newActor, other) then None
    else
      var overlap := Intersect(st.targetFiles, newFiles);
      if |overlap| > 0 then
        Some(Conflict(FileOverlap(SortedUnique(overlap)), Critical, other, newActor, st.action, now, false, None))
      else if |st.targetFiles| > 0 && |newFiles| > 0 then
        Some(Conflict(ConcurrentEdit(SortedUnique(st.targetFiles), SortedUnique(newFiles)),
                      Warning, other, newActor, st.action, now, false, None))
      else None
  }

  function ConflictAt(actors: map<Actor, ActorState>, other: Actor, newActor: Actor, newFiles: seq<string>,
                      now: Timestamp): seq<Conflict>
  {
    if other !in actors then []
    else match ConflictWith(other, actors[other], newActor, newFiles, now)
      case None => []
      case Some(c) => [c]
  }

  /** The conflicts found by scanning the actors in `order`. */
  function DetectIn(actors: map<Actor, ActorState>, order: seq<Actor>, newActor: Actor, newFiles: seq<string>,
                    now: Timestamp): seq<Conflict>
  {
    if order == [] then []
    else DetectIn(actors, order[..|order| - 1], newActor, newFiles, now)
         + ConflictAt(actors, order[|order| - 1], newActor, newFiles, now)
  }

  function DetectSpec(actors: map<Actor, ActorState>, newActor: Actor, newFiles: seq<string>, now: Timestamp)
    : seq<Conflict>
  {
    DetectIn(actors, ActorOrder, newActor, newFiles, now)
  }

  /** The loop body of `_detect_conflicts` for one other actor. */
  method ConflictFor(actors: map<Actor, ActorState>, other: Actor, newActor: Actor, newFiles: seq<string>,
                     now: Timestamp)
    returns (found: seq<Conflict>)
    ensures found == ConflictAt(actors, other, newActor, newFiles, now)
  {
    found := [];
    if other != newActor && other in actors {
      var st := actors[other];
      if st.status == Running || st.status == Waiting {
        if MayConflict(newActor, other) {
          var overlap := Intersect(st.targetFiles, newFiles);
          if |overlap| > 0 {
            found := [Conflict(FileOverlap(SortedUnique(overlap)), Critical, other, newActor,
                               st.action, now, false, None)];
          } else if |st.targetFiles| > 0 && |newFiles| > 0 {
            found := [Conflict(ConcurrentEdit(SortedUnique(st.targetFiles), SortedUnique(newFiles)),
                               Warning, other, newActor, st.action, now, false, None)];
          }
        }
      }
    }
  }

  /** `_detect_conflicts`: one pass over the actors, appending what each one causes. */
  method DetectConflicts(actors: map<Actor, ActorState>, newActor: Actor, newFiles: seq<string>, now: Timestamp)
    returns (conflicts: seq<Conflict>)
    ensures conflicts == DetectSpec(actors, newActor, newFiles, now)
  {
    conflicts := [];
    var i := 0;
    while i < |ActorOrder|
      invariant 0 <= i <= |ActorOrder|
      invariant conflicts == DetectIn(actors, ActorOrder[..i], newActor, newFiles, now)
    {
      var other := ActorOrder[i];
      assert ActorOrder[..i + 1][..i] == ActorOrder[..i];
      var found := ConflictFor(actors, other, newActor, newFiles, now);
      conflicts := conflicts + found;
      i := i + 1;
    }
    assert ActorOrder[..i] == ActorOrder;
  }

  /** Everything a reported conflict says about the actors' records. */
  predicate ConflictFacts(actors: map<Actor, ActorState>, newActor: Actor, newFiles: seq<string>, now: Timestamp,
                          c: Conflict)
  {
    && c.actorB == newActor && c.actorA != newActor
    && c.actorA in actors && Active(actors[c.actorA])
    && MayConflict(newActor, c.actorA)
    && c.actorAAction == actors[c.actorA].action
    && c.detectedAt == now && !c.resolved && c.resolvedAt == None
    && var existing := Elems(actors[c.actorA].targetFiles);
       match c.kind
       case FileOverlap(files) =>
         c.severity == Critical && StrictlySorted(files)
         && Elems(files) == existing * Elems(newFiles) && Elems(files) != {}
       case ConcurrentEdit(aFiles, bFiles) =>
         c.severity == Warning && existing * Elems(newFiles) == {}
         && existing != {} && Elems(newFiles) != {}
         && StrictlySorted(aFiles) && Elems(aFiles) == existing
         && StrictlySorted(bFiles) && Elems(bFiles) == Elems(newFiles)
  }

  lemma ConflictWithFacts(actors: map<Actor, ActorState>, other: Actor, newActor: Actor, newFiles: seq<string>,
                          now: Timestamp)
    requires other in actors
    ensures var r := ConflictWith(other, actors[other], newActor, newFiles, now);
            r.Some? ==> r.value.actorA == other && ConflictFacts(actors, newActor, newFiles, now, r.value)
  {
    var st := actors[other];
    var r := ConflictWith(other, st, newActor, newFiles, now);
    if r.Some? && r.value.kind.ConcurrentEdit? {
      assert Elems(Intersect(st.targetFiles, newFiles)) == {};
      assert st.targetFiles[0] in Elems(st.targetFiles);
      assert newFiles[0] in Elems(newFiles);
    }
  }

  /** An actor that may conflict, is active and has files causes a conflict exactly when the new task has files too. */
  lemma ConflictWithExists(other: Actor, st: ActorState, newActor: Actor, newFiles: seq<string>, now: Timestamp)
    ensures ConflictWith(other, st, newActor, newFiles, now).Some?
            <==> other != newActor && Active(st) && MayConflict(newActor, other)
                 && |st.targetFiles| > 0 && |newFiles| > 0
  {
    var overlap := Intersect(st.targetFiles, newFiles);
    if |overlap| > 0 {
      assert overlap[0] in Elems(st.targetFiles) * Elems(newFiles);
    }
  }

  lemma {:induction false} DetectInFacts(actors: map<Actor, ActorState>, order: seq<Actor>, newActor: Actor,
                                         newFiles: seq<string>, now: Timestamp)
    ensures forall c :: c in DetectIn(actors, order, newActor, newFiles, now)
                        ==> c.actorA in order && ConflictFacts(actors, newActor, newFiles, now, c)
  {
    if order != [] {
      var last := order[|order| - 1];
      DetectInFacts(actors, order[..|order| - 1], newActor, newFiles, now);
      if last in actors { ConflictWithFacts(actors, last, newActor, newFiles, now); }
    }
  }

  /**
   * Every reported conflict is between the new actor and a different, active actor
   * the rule table pairs it with, and says what the two file sets are.
   */
  lemma DetectSound(actors: map<Actor, ActorState>, newActor: Actor, newFiles: seq<string>, now: Timestamp)
    ensures forall c :: c in DetectSpec(actors, newActor, newFiles, now)
                        ==> ConflictFacts(actors, newActor, newFiles, now, c)
  {
    DetectInFacts(actors, ActorOrder, newActor, newFiles, now);
  }

  /** The Telegram bot is never part of a conflict. */
  lemma TelegramNeverConflicts(actors: map<Actor, ActorState>, newActor: Actor, newFiles: seq<string>, now: Timestamp)
    ensures forall c :: c in DetectSpec(actors, newActor, newFiles, now)
                        ==> c.actorA != TelegramBot && c.actorB != TelegramBot
  {
    DetectSound(actors, newActor, newFiles, now);
    forall c | c in DetectSpec(actors, newActor, newFiles, now)
      ensures c.actorA != TelegramBot && c.actorB != TelegramBot
    {
      MayConflictExactly(newActor, c.actorA);
    }
  }

  /** No two conflicts in `cs` come from the same other actor. */
  predicate DistinctSources(cs: seq<Conflict>) {
    forall i, j :: 0 <= i < j < |cs| ==> cs[i].actorA != cs[j].actorA
  }

  lemma {:induction false} DetectInDistinct(actors: map<Actor, ActorState>, order: seq<Actor>, newActor: Actor,
                                            newFiles: seq<string>, now: Timestamp)
    requires forall i, j :: 0 <= i < j < |order| ==> order[i] != order[j]
    ensures DistinctSources(DetectIn(actors, order, newActor, newFiles, now))
  {
    if order != [] {
      var init := order[..|order| - 1];
      var last := order[|order| - 1];
      DetectInDistinct(actors, init, newActor, newFiles, now);
      DetectInFacts(actors, init, newActor, newFiles, now);
      if last in actors { ConflictWithFacts(actors, last, newActor, newFiles, now); }
      var cs := DetectIn(actors, order, newActor, newFiles, now);
      var prev := DetectIn(actors, init, newActor, newFiles, now);
      var tail := ConflictAt(actors, last, newActor, newFiles, now);
      assert cs == prev + tail && |tail| <= 1;
      assert forall c :: c in tail ==> c.actorA == last;
      assert last !in init by {
        forall k | 0 <= k < |init| ensures init[k] != last { assert init[k] == order[k]; }
      }
      forall i, j | 0 <= i < j < |cs| ensures cs[i].actorA != cs[j].actorA {
        if j >= |prev| {
          assert cs[j] in tail;
          assert cs[j].actorA == last;
          assert cs[i] == prev[i] && prev[i] in prev;
          assert cs[i].actorA in init;
          assert cs[i].actorA != last;
        } else {
          assert cs[i] == prev[i] && cs[j] == prev[j];
          assert prev[i].actorA != prev[j].actorA;
        }
      }
    }
  }

  lemma {:induction false} DetectInLength(actors: map<Actor, ActorState>, order: seq<Actor>, newActor: Actor,
                                          newFiles: seq<string>, now: Timestamp)
    ensures |DetectIn(actors, order, newActor, newFiles, now)| <= |order|
    ensures newActor in order ==> |DetectIn(actors, order, newActor, newFiles, now)| < |order|
  {
    if order != [] {
      var init := order[..|order| - 1];
      DetectInLength(actors, init, newActor, newFiles, now);
      assert order == init + [order[|order| - 1]];
    }
  }

  /** Each other actor contributes at most one conflict. */
  lemma DetectAtMostOnePerActor(actors: map<Actor, ActorState>, newActor: Actor, newFiles: seq<string>, now: Timestamp)
    ensures |DetectSpec(actors, newActor, newFiles, now)| <= 2
    ensures DistinctSources(DetectSpec(actors, newActor, newFiles, now))
  {
    DetectInDistinct(actors, ActorOrder, newActor, newFiles, now);
    var cs := DetectSpec(actors, newActor, newFiles, now);
    assert cs == DetectIn(actors, ActorOrder, newActor, newFiles, now);
    DetectSound(actors, newActor, newFiles, now);
    DetectInLength(actors, ActorOrder, newActor, newFiles, now);
    assert newActor in ActorOrder;
  }

  lemma {:induction false} DetectInComplete(actors: map<Actor, ActorState>, order: seq<Actor>, k: nat, newActor: Actor,
                                            newFiles: seq<string>, now: Timestamp)
    requires k < |order| && order[k] in actors
    requires ConflictWith(order[k], actors[order[k]], newActor, newFiles, now).Some?
    ensures ConflictWith(order[k], actors[order[k]], newActor, newFiles, now).value
            in DetectIn(actors, order, newActor, newFiles, now)
  {
    var init := order[..|order| - 1];
    var c := ConflictWith(order[k], actors[order[k]], newActor, newFiles, now).value;
    var cs := DetectIn(actors, order, newActor, newFiles, now);
    assert cs == DetectIn(actors, init, newActor, newFiles, now)
                 + ConflictAt(actors, order[|order| - 1], newActor, newFiles, now);
    if k < |order| - 1 {
      assert init[k] == order[k];
      DetectInComplete(actors, init, k, newActor, newFiles, now);
      assert c in DetectIn(actors, init, newActor, newFiles, now);
    } else {
      assert ConflictAt(actors, order[k], newActor, newFiles, now) == [c];
    }
  }

  /**
   * Conversely, every other actor that is active, paired with the new actor by the rule
   * table and holding files conflicts with a new task that has files.
   */
  lemma DetectComplete(actors: map<Actor, ActorState>, other: Actor, newActor: Actor, newFiles: seq<string>,
                       now: Timestamp)
    requires other in actors && other != newActor && Active(actors[other]) && MayConflict(newActor, other)
    requires |actors[other].targetFiles| > 0 && |newFiles| > 0
    ensures exists c :: c in DetectSpec(actors, newActor, newFiles, now) && c.actorA == other
  {
    ConflictWithExists(other, actors[other], newActor, newFiles, now);
    var k := if other == Claude then 0 else if other == Cursor then 1 else 2;
    DetectInComplete(actors, ActorOrder, k, newActor, newFiles, now);
  }

  // ---------------------------------------------------------------- default state

  const FreshActor: ActorState := ActorState(Idle, None, [], None, None, None, None, None)

  function DefaultActors(): (m: map<Actor, ActorState>)
    ensures m.Keys == AllActors
    ensures forall a :: a in m ==> m[a] == FreshActor
  {
    map[Claude := FreshActor, Cursor := FreshActor, TelegramBot := FreshActor]
  }

  function DefaultInboxes(): (m: map<string, seq<Message>>)
    ensures forall a :: a in AllActors ==> ActorName(a) in m && m[ActorName(a)] == []
  {
    map[ActorName(Claude) := [], ActorName(Cursor) := [], ActorName(TelegramBot) := []]
  }

  /** `c` after the resolve loop: an unresolved entry is marked resolved at `now`. */
  function Resolve(c: Conflict, now: Timestamp): (r: Conflict)
    ensures r.resolved && r.kind == c.kind && r.actorA == c.actorA && r.actorB == c.actorB
    ensures r.severity == c.severity && r.actorAAction == c.actorAAction && r.detectedAt == c.detectedAt
    ensures c.resolved ==> r == c
    ensures !c.resolved ==> r.resolvedAt == Some(now)
  {
    if c.resolved then c else c.(resolved := true, resolvedAt := Some(now))
  }

  function ResolveAll(cs: seq<Conflict>, now: Timestamp): (r: seq<Conflict>)
    ensures |r| == |cs| && forall i :: 0 <= i < |cs| ==> r[i] == Resolve(cs[i], now)
  {
    seq(|cs|, i requires 0 <= i < |cs| => Resolve(cs[i], now))
  }

  class Store {
    var actors: map<Actor, ActorState>
    var unresolved: seq<Conflict>
    var messages: map<string, seq<Message>>
    var lastCompleted: LastCompleted
    var sharedNotes: seq<Note>
    var lastUpdated: Timestamp
    /** The contents of the activity log file. */
    var activityLog: seq<LogEntry>
    /** The contents of the conflict history file. */
    var conflictHistory: seq<Conflict>

    ghost predicate Valid()
      reads this
    {
      && actors.Keys == AllActors
      && (forall c :: c in unresolved ==> !c.resolved)
      && |activityLog| <= LogLimit
      && |conflictHistory| <= ConflictHistoryLimit
      && |sharedNotes| <= NotesLimit
      && (forall k :: k in messages ==> |messages[k]| <= InboxLimit)
    }

    /** `_default_state()`, with empty side histories. */
    constructor(now: Timestamp)
      ensures Valid()
      ensures actors == DefaultActors() && unresolved == [] && messages == DefaultInboxes()
      ensures lastCompleted == LastCompleted(None, None, None, None) && sharedNotes == []
      ensures lastUpdated == now && activityLog == [] && conflictHistory == []
    {
      actors := DefaultActors();
      unresolved := [];
      messages := DefaultInboxes();
      lastCompleted := LastCompleted(None, None, None, None);
      sharedNotes := [];
      lastUpdated := now;
      activityLog := [];
      conflictHistory := [];
    }

    /** `_log`: append, keep the newest 200. */
    method Log(now: Timestamp, event: Event)
      requires Valid()
      modifies this
      ensures Valid()
      ensures activityLog == TakeLast(old(activityLog) + [LogEntry(now, event)], LogLimit)
      ensures actors == old(actors) && unresolved == old(unresolved) && messages == old(messages)
      ensures lastCompleted == old(lastCompleted) && sharedNotes == old(sharedNotes)
      ensures lastUpdated == old(lastUpdated) && conflictHistory == old(conflictHistory)
    {
      activityLog := TakeLast(activityLog + [LogEntry(now, event)], LogLimit);
    }

    /** `_save_conflicts`: extend, keep the newest 100. */
    method SaveConflicts(cs: seq<Conflict>)
      requires Valid()
      modifies this
      ensures Valid()
      ensures conflictHistory == TakeLast(old(conflictHistory) + cs, ConflictHistoryLimit)
      ensures actors == old(actors) && unresolved == old(unresolved) && messages == old(messages)
      ensures lastCompleted == old(lastCompleted) && sharedNotes == old(sharedNotes)
      ensures lastUpdated == old(lastUpdated) && activityLog == old(activityLog)
    {
      conflictHistory := TakeLast(conflictHistory + cs, ConflictHistoryLimit);
    }

    /**
     * `_register_task` (`claude_set_task`, `cursor_set_task`): detect conflicts against
     * the state as loaded, record them, then mark the actor running on its files.
     */
    method RegisterTask(now: Timestamp, actor: Actor, action: string, targetFiles: Option<seq<string>>,
                        detail: string, progress: string, checkConflict: bool)
      returns (conflicts: seq<Conflict>)
      requires Valid()
      modifies this
      ensures Valid()
      ensures var files := if targetFiles.Some? then targetFiles.value else [];
              && conflicts == (if checkConflict then DetectSpec(old(actors), actor, files, now) else [])
              && actors == old(actors)[actor := old(actors)[actor].(
                   status := Running, action := Some(action), targetFiles := files,
                   progress := if progress == "" then None else Some(progress),
                   detail := if detail == "" then None else Some(detail),
                   startedAt := Some(now), lastActive := Some(now))]
              && activityLog == TakeLast(old(activityLog) + [LogEntry(now, Started(actor, action, files, detail))], LogLimit)
      ensures unresolved == old(unresolved) + conflicts
      ensures conflictHistory == if conflicts == [] then old(conflictHistory)
                                 else TakeLast(old(conflictHistory) + conflicts, ConflictHistoryLimit)
      ensures messages == old(messages) && lastCompleted == old(lastCompleted) && sharedNotes == old(sharedNotes)
      ensures lastUpdated == now
    {
      var files := if targetFiles.Some? then targetFiles.value else [];
      conflicts := [];
      if checkConflict {
        conflicts := DetectConflicts(actors, actor, files, now);
        if |conflicts| > 0 {
          DetectSound(actors, actor, files, now);
          unresolved := unresolved + conflicts;
          SaveConflicts(conflicts);
        }
      }
      MarkRunning(now, actor, action, files, detail, progress);
    }

    /** The second half of `_register_task`: the actor runs on `files`, and the start is logged. */
    method MarkRunning(now: Timestamp, actor: Actor, action: string, files: seq<string>,
                       detail: string, progress: string)
      requires Valid()
      modifies this
      ensures Valid()
      ensures actors == old(actors)[actor := old(actors)[actor].(
                status := Running, action := Some(action), targetFiles := files,
                progress := if progress == "" then None else Some(progress),
                detail := if detail == "" then None else Some(detail),
                startedAt := Some(now), lastActive := Some(now))]
      ensures activityLog == TakeLast(old(activityLog) + [LogEntry(now, Started(actor, action, files, detail))], LogLimit)
      ensures unresolved == old(unresolved) && conflictHistory == old(conflictHistory)
      ensures messages == old(messages) && lastCompleted == old(lastCompleted) && sharedNotes == old(sharedNotes)
      ensures lastUpdated == now
    {
      var st := actors[actor];
      actors := actors[actor := st.(
        status := Running, action := Some(action), targetFiles := files,
        progress := if progress == "" then None else Some(progress),
        detail := if detail == "" then None else Some(detail),
        startedAt := Some(now), lastActive := Some(now))];
      lastUpdated := now;
      Log(now, Started(actor, action, files, detail));
    }

    /**
     * `_update_actor` as `*_update_progress` calls it: a `None` argument leaves its field
     * alone, and an empty detail counts as `None`.
     */
    method UpdateProgress(now: Timestamp, actor: Actor, progress: Option<string>, detail: string)
      requires Valid()
      modifies this
      ensures Valid()
      ensures var st := old(actors)[actor];
              actors == old(actors)[actor := st.(
                progress := if progress.Some? then progress else st.progress,
                detail := if detail != "" then Some(detail) else st.detail,
                lastActive := Some(now))]
      ensures unresolved == old(unresolved) && messages == old(messages) && lastCompleted == old(lastCompleted)
      ensures sharedNotes == old(sharedNotes) && activityLog == old(activityLog)
      ensures conflictHistory == old(conflictHistory) && lastUpdated == now
    {
      var st := actors[actor];
      if progress.Some? { st := st.(progress := progress); }
      if detail != "" { st := st.(detail := Some(detail)); }
      actors := actors[actor := st.(lastActive := Some(now))];
      lastUpdated := now;
    }

    /** `_complete_actor`: done, files released, and the previous action recorded. */
    method Complete(now: Timestamp, actor: Actor, result: string)
      requires Valid()
      modifies this
      ensures Valid()
      ensures var st := old(actors)[actor];
              && actors == old(actors)[actor := st.(
                   status := Done, detail := Some(if result == "" then "완료" else result),
                   targetFiles := [], lastActive := Some(now))]
              && lastCompleted == LastCompleted(Some(actor), st.action, Some(result), Some(now))
              && activityLog == TakeLast(old(activityLog) + [LogEntry(now, Finished(actor, st.action, result))], LogLimit)
      ensures unresolved == old(unresolved) && messages == old(messages) && sharedNotes == old(sharedNotes)
      ensures conflictHistory == old(conflictHistory) && lastUpdated == now
    {
      var st := actors[actor];
      var action := st.action;
      actors := actors[actor := st.(
        status := Done, detail := Some(if result == "" then "완료" else result),
        targetFiles := [], lastActive := Some(now))];
      lastCompleted := LastCompleted(Some(actor), action, Some(result), Some(now));
      lastUpdated := now;
      Log(now, Finished(actor, action, result));
    }

    /** `_error_actor`. */
    method Fail(now: Timestamp, actor: Actor, error: string)
      requires Valid()
      modifies this
      ensures Valid()
      ensures var st := old(actors)[actor];
              actors == old(actors)[actor := st.(status := Error, detail := Some(error), lastActive := Some(now))]
      ensures activityLog == TakeLast(old(activityLog) + [LogEntry(now, Failed(actor, error))], LogLimit)
      ensures unresolved == old(unresolved) && messages == old(messages) && lastCompleted == old(lastCompleted)
      ensures sharedNotes == old(sharedNotes) && conflictHistory == old(conflictHistory) && lastUpdated == now
    {
      var st := actors[actor];
      actors := actors[actor := st.(status := Error, detail := Some(error), lastActive := Some(now))];
      lastUpdated := now;
      Log(now, Failed(actor, error));
    }

    /** `_idle_actor`: everything about the task is cleared; times and the session note stay. */
    method MakeIdle(now: Timestamp, actor: Actor)
      requires Valid()
      modifies this
      ensures Valid()
      ensures var st := old(actors)[actor];
              && actors == old(actors)[actor := st.(
                   status := Idle, action := None, targetFiles := [], progress := None, detail := None)]
              && actors[actor].sessionNote == st.sessionNote && actors[actor].startedAt == st.startedAt
      ensures unresolved == old(unresolved) && messages == old(messages) && lastCompleted == old(lastCompleted)
      ensures sharedNotes == old(sharedNotes) && activityLog == old(activityLog)
      ensures conflictHistory == old(conflictHistory) && lastUpdated == now
    {
      var st := actors[actor];
      actors := actors[actor := st.(status := Idle, action := None, targetFiles := [], progress := None, detail := None)];
      lastUpdated := now;
    }

    /** `claude_set_waiting`. */
    method SetWaiting(now: Timestamp, reason: string, waitSec: int)
      requires Valid()
      modifies this
      ensures Valid()
      ensures var st := old(actors)[Claude];
              actors == old(actors)[Claude := st.(
                status := Waiting, detail := Some(reason + " (" + IntToString(waitSec) + "초 대기)"),
                lastActive := Some(now))]
      ensures activityLog == TakeLast(old(activityLog) + [LogEntry(now, WaitingFor(Claude, reason, waitSec))], LogLimit)
      ensures unresolved == old(unresolved) && messages == old(messages) && lastCompleted == old(lastCompleted)
      ensures sharedNotes == old(sharedNotes) && conflictHistory == old(conflictHistory) && lastUpdated == now
    {
      var st := actors[Claude];
      actors := actors[Claude := st.(
        status := Waiting, detail := Some(reason + " (" + IntToString(waitSec) + "초 대기)"), lastActive := Some(now))];
      lastUpdated := now;
      Log(now, WaitingFor(Claude, reason, waitSec));
    }

    /** `claude_set_file_modified`: append unless present, keep the newest 10. */
    method SetFileModified(now: Timestamp, path: string)
      requires Valid()
      modifies this
      ensures Valid()
      ensures var st := old(actors)[Claude];
              actors == old(actors)[Claude := st.(
                targetFiles := AddModified(st.targetFiles, path), lastActive := Some(now))]
      ensures unresolved == old(unresolved) && messages == old(messages) && lastCompleted == old(lastCompleted)
      ensures sharedNotes == old(sharedNotes) && activityLog == old(activityLog)
      ensures conflictHistory == old(conflictHistory) && lastUpdated == now
    {
      var st := actors[Claude];
      var files := st.targetFiles;
      if path !in files {
        files := files + [path];
      }
      actors := actors[Claude := st.(targetFiles := TakeLast(files, ModifiedFilesLimit), lastActive := Some(now))];
      lastUpdated := now;
    }

    /** `claude_add_note`, `cursor_add_note`: the actor's session note and a shared note. */
    method AddSessionNote(now: Timestamp, actor: Actor, note: string)
      requires Valid()
      modifies this
      ensures Valid()
      ensures actors == old(actors)[actor := old(actors)[actor].(sessionNote := Some(note))]
      ensures sharedNotes == TakeLast(old(sharedNotes) + [Note(actor, note, now)], NotesLimit)
      ensures unresolved == old(unresolved) && messages == old(messages) && lastCompleted == old(lastCompleted)
      ensures activityLog == old(activityLog) && conflictHistory == old(conflictHistory) && lastUpdated == now
    {
      actors := actors[actor := actors[actor].(sessionNote := Some(note))];
      sharedNotes := TakeLast(sharedNotes + [Note(actor, note, now)], NotesLimit);
      lastUpdated := now;
    }

    /** `telegram_add_note`: a shared note only. */
    method TelegramAddNote(now: Timestamp, note: string)
      requires Valid()
      modifies this
      ensures Valid()
      ensures sharedNotes == TakeLast(old(sharedNotes) + [Note(TelegramBot, note, now)], NotesLimit)
      ensures actors == old(actors) && unresolved == old(unresolved) && messages == old(messages)
      ensures lastCompleted == old(lastCompleted) && activityLog == old(activityLog)
      ensures conflictHistory == old(conflictHistory) && lastUpdated == now
    {
      sharedNotes := TakeLast(sharedNotes + [Note(TelegramBot, note, now)], NotesLimit);
      lastUpdated := now;
    }

    /** `claude_check_messages`, `cursor_check_messages`: hand over the inbox and empty it. */
    method CheckMessages(now: Timestamp, actor: Actor) returns (msgs: seq<Message>)
      requires Valid()
      modifies this
      ensures Valid()
      ensures var name := ActorName(actor);
              && msgs == (if name in old(messages) then old(messages)[name] else [])
              && messages == (if msgs == [] then old(messages) else old(messages)[name := []])
      ensures ActorName(actor) in messages ==> messages[ActorName(actor)] == []
      ensures lastUpdated == if msgs == [] then old(lastUpdated) else now
      ensures actors == old(actors) && unresolved == old(unresolved) && lastCompleted == old(lastCompleted)
      ensures sharedNotes == old(sharedNotes) && activityLog == old(activityLog)
      ensures conflictHistory == old(conflictHistory)
    {
      var name := ActorName(actor);
      msgs := if name in messages then messages[name] else [];
      if |msgs| > 0 {
        messages := messages[name := []];
        lastUpdated := now;
      }
    }

    /** `telegram_send_message`: append to the recipient's inbox, keep the newest 10. */
    method SendMessage(now: Timestamp, to: string, msg: string)
      requires Valid()
      modifies this
      ensures Valid()
      ensures var inbox := if to in old(messages) then old(messages)[to] else [];
              messages == old(messages)[to := TakeLast(inbox + [Message(TelegramBot, msg, now, false)], InboxLimit)]
      ensures actors == old(actors) && unresolved == old(unresolved) && lastCompleted == old(lastCompleted)
      ensures sharedNotes == old(sharedNotes) && activityLog == old(activityLog)
      ensures conflictHistory == old(conflictHistory) && lastUpdated == now
    {
      var inbox := if to in messages then messages[to] else [];
      messages := messages[to := TakeLast(inbox + [Message(TelegramBot, msg, now, false)], InboxLimit)];
      lastUpdated := now;
    }

    /**
     * `telegram_resolve_conflicts`: mark every unresolved conflict resolved, drop them
     * from the unresolved list, mark the whole conflict history resolved, and report the count.
     */
    method ResolveConflicts(now: Timestamp) returns (count: nat, reply: string)
      requires Valid()
      modifies this
      ensures Valid()
      ensures count == |old(unresolved)| && unresolved == []
      ensures reply == "✅ " + NatToString(count) + "건의 충돌이 해제되었습니다."
      ensures conflictHistory == ResolveAll(old(conflictHistory), now)
      ensures |conflictHistory| == |old(conflictHistory)| && forall c :: c in conflictHistory ==> c.resolved
      ensures activityLog == TakeLast(old(activityLog) + [LogEntry(now, ConflictsCleared(count))], LogLimit)
      ensures actors == old(actors) && messages == old(messages) && lastCompleted == old(lastCompleted)
      ensures sharedNotes == old(sharedNotes) && lastUpdated == now
    {
      count := 0;
      var marked: seq<Conflict> := [];
      var i := 0;
      while i < |unresolved|
        invariant 0 <= i <= |unresolved| && count == i
        invariant marked == ResolveAll(unresolved[..i], now)
      {
        if !unresolved[i].resolved {
          count := count + 1;
        }
        marked := marked + [Resolve(unresolved[i], now)];
        i := i + 1;
      }
      var kept: seq<Conflict> := [];
      var j := 0;
      while j < |marked|
        invariant 0 <= j <= |marked| && kept == []
      {
        var c := marked[j];
        if !c.resolved {
          kept := kept + [c];
        }
        j := j + 1;
      }
      unresolved := kept;
      lastUpdated := now;

      var history: seq<Conflict> := [];
      var k := 0;
      while k < |conflictHistory|
        invariant 0 <= k <= |conflictHistory|
        invariant history == ResolveAll(conflictHistory[..k], now)
      {
        history := history + [Resolve(conflictHistory[k], now)];
        k := k + 1;
      }
      assert conflictHistory[..k] == conflictHistory;
      conflictHistory := history;
      Log(now, ConflictsCleared(count));
      reply := "✅ " + NatToString(count) + "건의 충돌이 해제되었습니다.";
    }
  }

  /** The file list after `claude_set_file_modified`. */
  function AddModified(files: seq<string>, path: string): (r: seq<string>)
    ensures |r| <= ModifiedFilesLimit
    ensures forall f :: f in r ==> f in files || f == path
  {
    TakeLast(if path in files then files else files + [path], ModifiedFilesLimit)
  }

  predicate Distinct(s: seq<string>) { forall i, j :: 0 <= i < j < |s| ==> s[i] != s[j] }

  /**
   * Recording a modified file never introduces a duplicate, and a file that was not
   * yet listed is listed afterwards (as the newest entry).
   */
  lemma AddModifiedProperties(files: seq<string>, path: string)
    ensures Distinct(files) ==> Distinct(AddModified(files, path))
    ensures path !in files ==> |AddModified(files, path)| > 0 && Last(AddModified(files, path)) == path
    ensures path in files && |files| <= ModifiedFilesLimit ==> AddModified(files, path) == files
  {
    var grown := if path in files then files else files + [path];
    var r := AddModified(files, path);
    if Distinct(files) {
      assert Distinct(grown) by {
        if path !in files {
          forall i, j | 0 <= i < j < |grown| ensures grown[i] != grown[j] {
            if j == |files| { assert grown[i] in files; }
          }
        }
      }
      forall i, j | 0 <= i < j < |r| ensures r[i] != r[j] {
        assert r[i] == grown[|grown| - |r| + i] && r[j] == grown[|grown| - |r| + j];
      }
    }
  }

  function Last<T>(s: seq<T>): T requires |s| > 0 { s[|s| - 1] }
}
