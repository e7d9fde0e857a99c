/**
 * The decision logic inside the Tistory publisher (`post_to_tistory.py`): the wait for
 * a Telegram keyword, cookie de-duplication, the alert accept-or-dismiss choice, the
 * URL checks that decide whether a login worked, the title/body split of a draft and
 * the hashtag generator. The browser, the network and the clock are replaced by the
 * values they return, passed in as parameters.
 */
module Tistory {
  import opened Wrappers
  import opened Text

  // ================================================================ Telegram keyword wait

  datatype ChatMessage = ChatMessage(chatId: Option<int>, text: Option<string>)

  /** One entry of a `getUpdates` reply; `message` is absent for other update kinds. */
  datatype Update = Update(updateId: int, message: Option<ChatMessage>)

  /** The first `getUpdates` call: it either raised or returned `ok` and a result list. */
  datatype FirstPoll = FirstPollFailed | FirstPollReply(ok: bool, result: seq<Update>)

  /** One poll inside the waiting loop. */
  datatype Poll = PollRequestError | PollNotOk | PollUpdates(updates: seq<Update>)

  /** `str(msg.get("chat", {}).get("id"))`. */
  function ChatIdText(m: Option<ChatMessage>): string {
    if m.Some? && m.value.chatId.Some? then IntToString(m.value.chatId.value) else "None"
  }

  /** `(msg.get("text") or "").strip()`. */
  function MessageText(m: Option<ChatMessage>): string {
    Strip(if m.Some? && m.value.text.Some? then m.value.text.value else "")
  }

  predicate Matches(u: Update, chatId: string, keyword: string) {
    ChatIdText(u.message) == chatId && Contains(MessageText(u.message), keyword)
  }

  /** The offset after the first poll: one past the newest pending update, if there is one. */
  function InitialOffset(p: FirstPoll): (r: Option<int>)
    ensures r.Some? <==> p.FirstPollReply? && p.ok && |p.result| > 0
  {
    if p.FirstPollReply? && p.ok && |p.result| > 0 then Some(p.result[|p.result| - 1].updateId + 1) else None
  }

  /** With increasing update ids, the initial offset lies past every pending update. */
  lemma InitialOffsetSkipsPending(p: FirstPoll)
    requires p.FirstPollReply? && p.ok && |p.result| > 0
    requires forall i, j :: 0 <= i < j < |p.result| ==> p.result[i].updateId < p.result[j].updateId
    ensures forall u :: u in p.result ==> u.updateId < InitialOffset(p).value
  {
    forall u | u in p.result ensures u.updateId < InitialOffset(p).value {
      var i :| 0 <= i < |p.result| && p.result[i] == u;
      if i < |p.result| - 1 { assert p.result[i].updateId < p.result[|p.result| - 1].updateId; }
    }
  }

  /** What one batch does: whether the keyword arrived, and the offset for the next poll. */
  function ScanSpec(batch: seq<Update>, offset: Option<int>, chatId: string, keyword: string): (bool, Option<int>) {
    if batch == [] then (false, offset)
    else if Matches(batch[0], chatId, keyword) then (true, Some(batch[0].updateId + 1))
    else ScanSpec(batch[1..], Some(batch[0].updateId + 1), chatId, keyword)
  }

  /** The `for upd in data["result"]` loop of `tg_wait_keyword`. */
  method ScanBatch(batch: seq<Update>, offset: Option<int>, chatId: string, keyword: string)
    returns (found: bool, newOffset: Option<int>)
    ensures (found, newOffset) == ScanSpec(batch, offset, chatId, keyword)
  {
    found := false;
    newOffset := offset;
    var i := 0;
    while i < |batch|
      invariant 0 <= i <= |batch|
      invariant ScanSpec(batch[i..], newOffset, chatId, keyword) == ScanSpec(batch, offset, chatId, keyword)
    {
      var u := batch[i];
      ghost var rest := batch[i..];
      assert rest[0] == u && rest[1..] == batch[i + 1..];
      newOffset := Some(u.updateId + 1);
      if Matches(u, chatId, keyword) {
        found := true;
        return;
      }
      i := i + 1;
    }
    assert batch[i..] == [];
  }

  /** A batch ends the wait exactly when one of its updates is from the configured chat and holds the keyword. */
  lemma {:induction false} ScanFoundIff(batch: seq<Update>, offset: Option<int>, chatId: string, keyword: string)
    ensures ScanSpec(batch, offset, chatId, keyword).0 <==> exists u :: u in batch && Matches(u, chatId, keyword)
  {
    if batch != [] {
      if Matches(batch[0], chatId, keyword) {
        assert batch[0] in batch;
      } else {
        ScanFoundIff(batch[1..], Some(batch[0].updateId + 1), chatId, keyword);
        assert forall u :: u in batch ==> u == batch[0] || u in batch[1..];
      }
    }
  }

  /** A batch that does not end the wait moves the offset past its last update (or keeps it, when empty). */
  lemma {:induction false} ScanOffsetAdvances(batch: seq<Update>, offset: Option<int>, chatId: string, keyword: string)
    requires !ScanSpec(batch, offset, chatId, keyword).0
    ensures ScanSpec(batch, offset, chatId, keyword).1
            == if batch == [] then offset else Some(batch[|batch| - 1].updateId + 1)
  {
    if batch != [] {
      ScanOffsetAdvances(batch[1..], Some(batch[0].updateId + 1), chatId, keyword);
    }
  }

  /** Updates from other chats never end the wait, whatever their text. */
  lemma OtherChatsNeverMatch(batch: seq<Update>, offset: Option<int>, chatId: string, keyword: string)
    requires forall u :: u in batch ==> ChatIdText(u.message) != chatId
    ensures !ScanSpec(batch, offset, chatId, keyword).0
  {
    ScanFoundIff(batch, offset, chatId, keyword);
  }

  /** The loop over polls: the result and the offset sent with each poll. */
  function WaitLoop(polls: seq<Poll>, offset: Option<int>, chatId: string, keyword: string)
    : (bool, seq<Option<int>>)
  {
    if polls == [] then (false, [])
    else
      var rest :=
        match polls[0]
        case PollRequestError => WaitLoop(polls[1..], offset, chatId, keyword)
        case PollNotOk => WaitLoop(polls[1..], offset, chatId, keyword)
        case PollUpdates(b) =>
          var (found, next) := ScanSpec(b, offset, chatId, keyword);
          if found then (true, []) else WaitLoop(polls[1..], next, chatId, keyword);
      (rest.0, [offset] + rest.1)
  }

  /**
   * `tg_wait_keyword`. `polls` are the replies received before the deadline; without a
   * token or chat id the source waits for Enter on the terminal and succeeds.
   * Returns the verdict and the offset passed with each poll.
   */
  method WaitForKeyword(token: string, chatId: string, keyword: string, first: FirstPoll, polls: seq<Poll>)
    returns (ok: bool, offsets: seq<Option<int>>)
    ensures token == "" || chatId == "" ==> ok && offsets == []
    ensures token != "" && chatId != "" ==> (ok, offsets) == WaitLoop(polls, InitialOffset(first), chatId, keyword)
  {
    if token == "" || chatId == "" {
      return true, [];
    }
    var offset := InitialOffset(first);
    ghost var whole := WaitLoop(polls, offset, chatId, keyword);
    offsets := [];
    ok := false;
    var i := 0;
    assert polls[0..] == polls;
    assert offsets + whole.1 == whole.1;
    while i < |polls|
      invariant 0 <= i <= |polls|
      invariant whole.0 == WaitLoop(polls[i..], offset, chatId, keyword).0
      invariant whole.1 == offsets + WaitLoop(polls[i..], offset, chatId, keyword).1
      invariant !ok
    {
      var p := polls[i];
      assert polls[i..][0] == p && polls[i..][1..] == polls[i + 1..];
      ghost var here := WaitLoop(polls[i..], offset, chatId, keyword);
      ghost var sent := offsets;
      offsets := offsets + [offset];
      assert sent + here.1 == offsets + here.1[1..];
      match p {
        case PollRequestError =>
        case PollNotOk =>
        case PollUpdates(b) =>
          var found, next := ScanBatch(b, offset, chatId, keyword);
          if found {
            assert here.0 && here.1 == [offset] + [];
            assert offsets + here.1[1..] == offsets;
            return true, offsets;
          }
          offset := next;
      }
      i := i + 1;
    }
    assert offsets + [] == offsets;
  }

  /** A positive answer always comes from an update of the configured chat holding the keyword. */
  lemma {:induction false} WaitLoopSound(polls: seq<Poll>, offset: Option<int>, chatId: string, keyword: string)
    requires WaitLoop(polls, offset, chatId, keyword).0
    ensures exists i, u :: 0 <= i < |polls| && polls[i].PollUpdates? && u in polls[i].updates
                           && Matches(u, chatId, keyword)
  {
    if polls[0].PollUpdates? && ScanSpec(polls[0].updates, offset, chatId, keyword).0 {
      ScanFoundIff(polls[0].updates, offset, chatId, keyword);
    } else {
      var next := if polls[0].PollUpdates? then ScanSpec(polls[0].updates, offset, chatId, keyword).1 else offset;
      WaitLoopSound(polls[1..], next, chatId, keyword);
      var i, u :| 0 <= i < |polls[1..]| && polls[1..][i].PollUpdates? && u in polls[1..][i].updates
                  && Matches(u, chatId, keyword);
      assert polls[i + 1] == polls[1..][i];
    }
  }

  // ================================================================ cookies

  datatype Cookie = Cookie(domain: Option<string>, name: Option<string>, value: string)

  function OptText(s: Option<string>): string { if s.Some? then s.value else "None" }

  /** `f"{c.get('domain')}:{c.get('name')}"`. */
  function CookieKey(c: Cookie): string { OptText(c.domain) + ":" + OptText(c.name) }

  function Keys(cs: seq<Cookie>): set<string> { set c | c in cs :: CookieKey(c) }

  /** The cookies in source order: the current page, then the two other domains when they did not fail. */
  function AllCookies(current: seq<Cookie>, main: Option<seq<Cookie>>, blog: Option<seq<Cookie>>): seq<Cookie> {
    current + main.GetOr([]) + blog.GetOr([])
  }

  /** Keep each cookie whose key has not been seen yet. */
  function DedupeFrom(cs: seq<Cookie>, seen: set<string>): seq<Cookie> {
    if cs == [] then []
    else if CookieKey(cs[0]) in seen then DedupeFrom(cs[1..], seen)
    else [cs[0]] + DedupeFrom(cs[1..], seen + {CookieKey(cs[0])})
  }

  /** `save_cookies`: the three reads, collected through one `seen` set. */
  method SaveCookies(current: seq<Cookie>, main: Option<seq<Cookie>>, blog: Option<seq<Cookie>>)
    returns (saved: seq<Cookie>)
    ensures saved == DedupeFrom(AllCookies(current, main, blog), {})
  {
    var all := AllCookies(current, main, blog);
    ghost var target := DedupeFrom(all, {});
    var seen: set<string> := {};
    saved := [];
    var i := 0;
    assert all[0..] == all;
    while i < |all|
      invariant 0 <= i <= |all|
      invariant saved + DedupeFrom(all[i..], seen) == target
    {
      var c := all[i];
      var key := CookieKey(c);
      DedupeStep(all, i, seen);
      if key !in seen {
        assert saved + ([c] + DedupeFrom(all[i + 1..], seen + {key}))
            == (saved + [c]) + DedupeFrom(all[i + 1..], seen + {key});
        seen := seen + {key};
        saved := saved + [c];
      }
      i := i + 1;
    }
    assert all[i..] == [];
  }

  /** One step of the dedupe from position `i`. */
  lemma DedupeStep(all: seq<Cookie>, i: nat, seen: set<string>)
    requires i < |all|
    ensures DedupeFrom(all[i..], seen)
         == if CookieKey(all[i]) in seen then DedupeFrom(all[i + 1..], seen)
            else [all[i]] + DedupeFrom(all[i + 1..], seen + {CookieKey(all[i])})
  {
    assert all[i..][1..] == all[i + 1..];
    assert all[i..][0] == all[i];
  }

  /** Index of the first cookie with key `k`. */
  function FirstIndex(cs: seq<Cookie>, k: string): (r: Option<nat>)
    ensures r.Some? ==> r.value < |cs| && CookieKey(cs[r.value]) == k
    ensures r.Some? ==> forall j :: 0 <= j < r.value ==> CookieKey(cs[j]) != k
    ensures r.None? ==> forall j :: 0 <= j < |cs| ==> CookieKey(cs[j]) != k
  {
    if cs == [] then None
    else if CookieKey(cs[0]) == k then Some(0)
    else
      match FirstIndex(cs[1..], k)
      case None => None
      case Some(j) => Some(j + 1)
  }

  /** The kept cookies have distinct keys, none of them already seen. */
  lemma {:induction false} DedupeDistinct(cs: seq<Cookie>, seen: set<string>)
    ensures var r := DedupeFrom(cs, seen);
            && (forall x :: x in r ==> CookieKey(x) !in seen)
            && (forall i, j :: 0 <= i < j < |r| ==> CookieKey(r[i]) != CookieKey(r[j]))
  {
    if cs != [] {
      var k := CookieKey(cs[0]);
      if k in seen {
        DedupeDistinct(cs[1..], seen);
      } else {
        DedupeDistinct(cs[1..], seen + {k});
        var tail := DedupeFrom(cs[1..], seen + {k});
        var r := [cs[0]] + tail;
        forall i, j | 0 <= i < j < |r| ensures CookieKey(r[i]) != CookieKey(r[j]) {
          assert r[j] == tail[j - 1] && r[j] in tail;
          if i > 0 { assert r[i] == tail[i - 1]; }
        }
      }
    }
  }

  /** Every key not seen before is kept. */
  lemma {:induction false} DedupeKeys(cs: seq<Cookie>, seen: set<string>)
    ensures Keys(DedupeFrom(cs, seen)) == Keys(cs) - seen
  {
    if cs != [] {
      var k := CookieKey(cs[0]);
      assert Keys(cs) == {k} + Keys(cs[1..]) by { assert cs == [cs[0]] + cs[1..]; }
      if k in seen {
        DedupeKeys(cs[1..], seen);
      } else {
        DedupeKeys(cs[1..], seen + {k});
        var tail := DedupeFrom(cs[1..], seen + {k});
        assert Keys([cs[0]] + tail) == {k} + Keys(tail);
      }
    }
  }

  /** Each kept cookie is the first one in the input with its key. */
  lemma {:induction false} DedupeFirst(cs: seq<Cookie>, seen: set<string>)
    ensures var r := DedupeFrom(cs, seen);
            forall x :: x in r ==> FirstIndex(cs, CookieKey(x)).Some? && cs[FirstIndex(cs, CookieKey(x)).value] == x
  {
    if cs != [] {
      var k := CookieKey(cs[0]);
      var seen' := if k in seen then seen else seen + {k};
      DedupeFirst(cs[1..], seen');
      DedupeDistinct(cs[1..], seen');
      var tail := DedupeFrom(cs[1..], seen');
      forall x | x in tail
        ensures FirstIndex(cs, CookieKey(x)).Some? && cs[FirstIndex(cs, CookieKey(x)).value] == x
      {
        assert CookieKey(x) != k;
        assert cs[1..][FirstIndex(cs[1..], CookieKey(x)).value] == x;
      }
    }
  }

  lemma FirstIndexShift(cs: seq<Cookie>, k: string)
    requires cs != [] && CookieKey(cs[0]) != k && FirstIndex(cs[1..], k).Some?
    ensures FirstIndex(cs, k).Some? && FirstIndex(cs, k).value == FirstIndex(cs[1..], k).value + 1
  {
  }

  /** The cookies of `r` all occur in `cs`, in order of their keys' first occurrence there. */
  predicate OrderedByFirst(cs: seq<Cookie>, r: seq<Cookie>) {
    && (forall x :: x in r ==> FirstIndex(cs, CookieKey(x)).Some?)
    && (forall i, j :: 0 <= i < j < |r| ==>
          FirstIndex(cs, CookieKey(r[i])).Some? && FirstIndex(cs, CookieKey(r[j])).Some? &&
          FirstIndex(cs, CookieKey(r[i])).value < FirstIndex(cs, CookieKey(r[j])).value)
  }

  /** Order over the tail carries over to the whole input when the head's key is not involved. */
  lemma OrderedShift(cs: seq<Cookie>, r: seq<Cookie>)
    requires cs != [] && OrderedByFirst(cs[1..], r)
    requires forall x :: x in r ==> CookieKey(x) != CookieKey(cs[0])
    ensures OrderedByFirst(cs, r)
    ensures forall x :: x in r ==> FirstIndex(cs, CookieKey(x)).value > 0
  {
    forall x | x in r
      ensures FirstIndex(cs, CookieKey(x)).Some?
      ensures FirstIndex(cs, CookieKey(x)).value == FirstIndex(cs[1..], CookieKey(x)).value + 1
    {
      FirstIndexShift(cs, CookieKey(x));
    }
    forall i, j | 0 <= i < j < |r|
      ensures FirstIndex(cs, CookieKey(r[i])).value < FirstIndex(cs, CookieKey(r[j])).value
    {
      assert r[i] in r && r[j] in r;
    }
  }

  /** Putting the head of the input in front keeps the order. */
  lemma OrderedCons(cs: seq<Cookie>, r: seq<Cookie>)
    requires cs != [] && OrderedByFirst(cs, r)
    requires forall x :: x in r ==> FirstIndex(cs, CookieKey(x)).value > 0
    ensures OrderedByFirst(cs, [cs[0]] + r)
  {
    var r' := [cs[0]] + r;
    assert FirstIndex(cs, CookieKey(cs[0])) == Some(0);
    forall x | x in r' ensures FirstIndex(cs, CookieKey(x)).Some? {
      if x != cs[0] { assert x in r; }
    }
    forall i, j | 0 <= i < j < |r'|
      ensures FirstIndex(cs, CookieKey(r'[i])).value < FirstIndex(cs, CookieKey(r'[j])).value
    {
      OrderedConsPair(cs, r, i, j);
    }
  }

  lemma OrderedConsPair(cs: seq<Cookie>, r: seq<Cookie>, i: nat, j: nat)
    requires cs != [] && OrderedByFirst(cs, r)
    requires forall x :: x in r ==> FirstIndex(cs, CookieKey(x)).value > 0
    requires i < j <= |r|
    ensures FirstIndex(cs, CookieKey(([cs[0]] + r)[i])).Some?
    ensures FirstIndex(cs, CookieKey(([cs[0]] + r)[j])).Some?
    ensures FirstIndex(cs, CookieKey(([cs[0]] + r)[i])).value < FirstIndex(cs, CookieKey(([cs[0]] + r)[j])).value
  {
    var r' := [cs[0]] + r;
    var b := r[j - 1];
    assert r'[j] == b && b in r;
    if i == 0 {
      assert r'[i] == cs[0];
      assert FirstIndex(cs, CookieKey(cs[0])) == Some(0);
    } else {
      assert r'[i] == r[i - 1];
    }
  }

  /** The kept cookies appear in order of their keys' first occurrence. */
  lemma {:induction false} DedupeOrder(cs: seq<Cookie>, seen: set<string>)
    ensures OrderedByFirst(cs, DedupeFrom(cs, seen))
  {
    if cs != [] {
      var k := CookieKey(cs[0]);
      var seen' := if k in seen then seen else seen + {k};
      DedupeOrder(cs[1..], seen');
      DedupeDistinct(cs[1..], seen');
      var tail := DedupeFrom(cs[1..], seen');
      if k !in seen {
        OrderedShift(cs, tail);
        OrderedCons(cs, tail);
      } else {
        assert forall x :: x in tail ==> CookieKey(x) != k;
        OrderedShift(cs, tail);
      }
    }
  }

  /** `save_cookies` never stores two cookies under one key, and loses no key. */
  lemma SavedCookiesDistinct(current: seq<Cookie>, main: Option<seq<Cookie>>, blog: Option<seq<Cookie>>)
    ensures var all := AllCookies(current, main, blog);
            var saved := DedupeFrom(all, {});
            && (forall i, j :: 0 <= i < j < |saved| ==> CookieKey(saved[i]) != CookieKey(saved[j]))
            && Keys(saved) == Keys(all)
            && (forall x :: x in saved ==> FirstIndex(all, CookieKey(x)).Some?
                                           && all[FirstIndex(all, CookieKey(x)).value] == x)
            && OrderedByFirst(all, saved)
  {
    var all := AllCookies(current, main, blog);
    DedupeDistinct(all, {});
    DedupeKeys(all, {});
    DedupeFirst(all, {});
    DedupeOrder(all, {});
  }

  // ================================================================ alerts

  datatype AlertAction = Accept | Dismiss

  /** The accept test of `dismiss_alert_if_present`, as written. */
  predicate ShouldAccept(text: string) {
    Contains(text, "이어서 작성") || Contains(text, "저장된 글이 있습니다")
    || (Contains(text, "이어서") && Contains(text, "작성"))
  }

  /** The first alternative is implied by the third: an alert is accepted exactly on the two others. */
  lemma ShouldAcceptExactly(text: string)
    ensures ShouldAccept(text) <==> Contains(text, "저장된 글이 있습니다") || (Contains(text, "이어서") && Contains(text, "작성"))
  {
    if Contains(text, "이어서 작성") {
      ContainsAt("이어서 작성", "이어서", 0);
      ContainsAt("이어서 작성", "작성", 4);
      ContainsTrans(text, "이어서 작성", "이어서");
      ContainsTrans(text, "이어서 작성", "작성");
    }
  }

  function AlertText(t: Option<string>): string { Strip(t.GetOr("")) }

  function Decide(t: Option<string>): AlertAction { if ShouldAccept(AlertText(t)) then Accept else Dismiss }

  /** One pass of the alert loop: read the text, accept or dismiss. */
  method DecideAlert(alert: Option<string>) returns (action: AlertAction)
    ensures action == Decide(alert)
  {
    var text := AlertText(alert);
    if ShouldAccept(text) {
      action := Accept;
    } else {
      action := Dismiss;
    }
  }

  /**
   * `dismiss_alert_if_present`: `alerts` are the texts of the successive alerts that
   * appear (the loop stops at the first `switch_to.alert` that raises); at most five are handled.
   */
  method HandleAlerts(alerts: seq<Option<string>>) returns (actions: seq<AlertAction>)
    ensures |actions| == if |alerts| < 5 then |alerts| else 5
    ensures forall i :: 0 <= i < |actions| ==> actions[i] == Decide(alerts[i])
  {
    actions := [];
    var i := 0;
    while i < 5 && i < |alerts|
      invariant 0 <= i <= 5 && i <= |alerts| && |actions| == i
      invariant forall j :: 0 <= j < i ==> actions[j] == Decide(alerts[j])
    {
      var action := DecideAlert(alerts[i]);
      actions := actions + [action];
      i := i + 1;
    }
  }

  // ================================================================ login URLs

  function NewpostUrl(blog: string): string { "https://" + blog + ".tistory.com/manage/newpost" }

  function LoginUrl(blog: string): string {
    "https://www.tistory.com/auth/login" + "?redirectUrl=https%3A%2F%2F" + blog + ".tistory.com%2Fmanage%2Fnewpost"
  }

  /** `is_on_newpost`, with a missing URL read as "". */
  predicate IsOnNewpost(url: string) { Contains(url, "tistory.com/manage/newpost") }

  /** The cookie-login check after loading the editor page. */
  predicate CookieLoginSucceeded(url: string) {
    Contains(url, "tistory.com/manage") && !Contains(url, "accounts.kakao.com") && !Contains(url, "/auth/login")
  }

  /** The editor URL built from any blog name is recognised as the editor page. */
  lemma NewpostUrlIsNewpost(blog: string)
    ensures IsOnNewpost(NewpostUrl(blog))
  {
    var url := NewpostUrl(blog);
    var k := 8 + |blog|;
    assert url == ("https://" + blog) + ".tistory.com/manage/newpost";
    assert |url| == k + 27;
    assert url[k + 1..] == "tistory.com/manage/newpost";
    assert url[k + 1..k + 27] == url[k + 1..];
    ContainsAt(url, "tistory.com/manage/newpost", k + 1);
  }

  /** Being sent back to the login page (whatever blog it redirects to) never counts as logged in. */
  lemma LoginPageIsNotLoggedIn(blog: string)
    ensures !CookieLoginSucceeded(LoginUrl(blog))
  {
    var url := LoginUrl(blog);
    assert url[23..34] == "/auth/login";
    ContainsAt(url, "/auth/login", 23);
  }

  /** Being on the editor page implies the first condition of the cookie-login check. */
  lemma NewpostImpliesManage(url: string)
    requires IsOnNewpost(url)
    ensures Contains(url, "tistory.com/manage")
  {
    ContainsAt("tistory.com/manage/newpost", "tistory.com/manage", 0);
    ContainsTrans(url, "tistory.com/manage/newpost", "tistory.com/manage");
  }

  // ================================================================ draft split

  predicate IsHeading(lines: seq<string>) { |lines| > 0 && |lines[0]| >= 2 && lines[0][..2] == "# " }

  /** The title/body split of `read_first_post` over `raw.splitlines()`. */
  function SplitDraft(lines: seq<string>, stem: string): (string, string)
  {
    if IsHeading(lines) then (Strip(lines[0][2..]), LStrip(Join("\n", lines[1..])))
    else (stem, Join("\n", lines))
  }

  /** Without a heading the body is the whole file: splitting it on newlines gives the lines back. */
  lemma SplitDraftNoHeading(lines: seq<string>, stem: string)
    requires !IsHeading(lines)
    requires forall i :: 0 <= i < |lines| ==> '\n' !in lines[i]
    ensures SplitDraft(lines, stem).0 == stem
    ensures lines == [] ==> SplitDraft(lines, stem).1 == ""
    ensures lines != [] ==> Split(SplitDraft(lines, stem).1, '\n') == lines
  {
    if lines != [] { SplitJoin(lines, '\n'); }
  }

  /**
   * With a heading, the title is the heading text after `# ` without surrounding
   * whitespace: it neither starts nor ends with whitespace and keeps every other character.
   */
  lemma SplitDraftTitle(lines: seq<string>, stem: string)
    requires IsHeading(lines)
    ensures Trimmed(SplitDraft(lines, stem).0)
    ensures |SplitDraft(lines, stem).0| <= |lines[0]| - 2
    ensures KeepsNonSpace(lines[0][2..], SplitDraft(lines, stem).0)
  {
    var text := lines[0][2..];
    assert SplitDraft(lines, stem).0 == Strip(text);
    StripShape(text);
  }

  /** With a heading, the file is the heading line, a newline, blank space, then the body. */
  lemma SplitDraftHeading(lines: seq<string>, stem: string)
    requires IsHeading(lines) && |lines| > 1
    ensures var rest := Join("\n", lines[1..]);
            var body := SplitDraft(lines, stem).1;
            && Join("\n", lines) == lines[0] + "\n" + rest
            && rest == rest[..|rest| - |body|] + body
            && (forall i :: 0 <= i < |rest| - |body| ==> IsSpace(rest[i]))
            && (body == [] || !IsSpace(body[0]))
  {
    var rest := Join("\n", lines[1..]);
    var body := LStrip(rest);
    assert rest == rest[..|rest| - |body|] + rest[|rest| - |body|..];
  }

  // ================================================================ image lines

  /** The part of an image link between the alt text and the file name. */
  const ImageLink := "](../images/"

  /** The first `c` at or after `from`, or `|s|`. */
  function CharFrom(s: string, from: nat, c: char): (r: nat)
    requires from <= |s|
    ensures from <= r <= |s| && (r < |s| ==> s[r] == c)
    ensures forall k :: from <= k < r ==> s[k] != c
    decreases |s| - from
  {
    if from == |s| || s[from] == c then from else CharFrom(s, from + 1, c)
  }

  /** The end of the whitespace run starting at `from`. */
  function SpaceEnd(s: string, from: nat): (r: nat)
    requires from <= |s|
    ensures from <= r <= |s| && (r < |s| ==> !IsSpace(s[r]))
    ensures forall k :: from <= k < r ==> IsSpace(s[k])
    decreases |s| - from
  {
    if from == |s| || !IsSpace(s[from]) then from else SpaceEnd(s, from + 1)
  }

  /** What follows the whitespace run is `LStrip` of the text from its start. */
  lemma {:induction false} SpaceEndStrips(s: string, from: nat)
    requires from <= |s|
    ensures s[SpaceEnd(s, from)..] == LStrip(s[from..])
    decreases |s| - from
  {
    if from < |s| && IsSpace(s[from]) {
      SpaceEndStrips(s, from + 1);
      assert s[from..][1..] == s[from + 1..];
    }
  }

  /**
   * `!\[[^\]]*\]\(\.\./images/[^)]+\)\s*\n?` tried at `i`, giving the end of the match:
   * the alt text runs to the first `]`, the file name (at least one character) to the first
   * `)`, and the greedy `\s*` then takes every whitespace character after it, newlines
   * included, which leaves nothing for `\n?`.
   */
  function ImageMarkupEnd(s: string, i: nat): (r: Option<nat>)
    requires i <= |s|
    ensures r.Some? ==> i < r.value <= |s|
  {
    if i + 2 <= |s| && s[i] == '!' && s[i + 1] == '[' then
      var j := CharFrom(s, i + 2, ']');
      if j + |ImageLink| <= |s| && s[j..j + |ImageLink|] == ImageLink then
        var m := CharFrom(s, j + |ImageLink|, ')');
        if j + |ImageLink| < m < |s| then Some(SpaceEnd(s, m + 1)) else None
      else None
    else None
  }

  /** `^` under `re.MULTILINE`: the start of the text or just after a newline of the original text. */
  predicate LineStart(s: string, i: nat)
    requires i <= |s|
  {
    i == 0 || s[i - 1] == '\n'
  }

  /**
   * `re.sub` of that pattern with "" over `s`, from position `i`: a match is removed and the
   * scan resumes at its end; every other character is kept.
   */
  function RemoveImageLines(s: string, i: nat): (r: string)
    requires i <= |s|
    ensures |r| <= |s| - i
    decreases |s| - i
  {
    if i == |s| then []
    else if LineStart(s, i) && ImageMarkupEnd(s, i).Some? then RemoveImageLines(s, ImageMarkupEnd(s, i).value)
    else [s[i]] + RemoveImageLines(s, i + 1)
  }

  /** `read_first_post`'s title and body: the image markup lines are taken out of the body, which is left-stripped again. */
  function ReadFirstPost(lines: seq<string>, stem: string): (string, string) {
    var (title, body) := SplitDraft(lines, stem);
    (title, LStrip(RemoveImageLines(body, 0)))
  }

  /** Where no line from `i` on starts with image markup, nothing is removed. */
  lemma {:induction false} RemoveNothing(s: string, i: nat)
    requires i <= |s|
    requires forall k :: i <= k < |s| && LineStart(s, k) ==> ImageMarkupEnd(s, k).None?
    ensures RemoveImageLines(s, i) == s[i..]
    decreases |s| - i
  {
    if i < |s| {
      RemoveNothing(s, i + 1);
      assert s[i..] == [s[i]] + s[i + 1..];
    }
  }

  lemma {:induction false} CharFromAt(s: string, from: nat, c: char, t: nat)
    requires from <= t < |s| && s[t] == c
    requires forall k :: from <= k < t ==> s[k] != c
    ensures CharFrom(s, from, c) == t
    decreases t - from
  {
    if from < t { CharFromAt(s, from + 1, c, t); }
  }

  /** The match at `i` when the alt text ends at `j` and the file name at `m`. */
  lemma {:induction false} MarkupEndAt(s: string, i: nat, j: nat, m: nat)
    requires i + 2 <= j && j + |ImageLink| < m < |s|
    requires s[i] == '!' && s[i + 1] == '[' && s[j..j + |ImageLink|] == ImageLink && s[m] == ')'
    requires forall k :: i + 2 <= k < j ==> s[k] != ']'
    requires forall k :: j + |ImageLink| <= k < m ==> s[k] != ')'
    ensures ImageMarkupEnd(s, i) == Some(SpaceEnd(s, m + 1))
  {
    assert s[j] == ImageLink[0];
    CharFromAt(s, i + 2, ']', j);
    CharFromAt(s, j + |ImageLink|, ')', m);
  }

  /** A match at the start whose end is followed by no line starting with image markup. */
  lemma RemoveFirstMatch(s: string, e: nat)
    requires ImageMarkupEnd(s, 0) == Some(e)
    requires forall k :: e <= k < |s| && LineStart(s, k) ==> ImageMarkupEnd(s, k).None?
    ensures RemoveImageLines(s, 0) == s[e..]
  {
    RemoveNothing(s, e);
  }

  /**
   * A body that starts with an image line loses that line and the whitespace after it;
   * when no later line starts with image markup, the rest is kept as it is.
   */
  lemma LeadingImageLineRemoved(alt: string, name: string, rest: string)
    requires ']' !in alt && name != [] && ')' !in name
    ensures var s := "![" + alt + ImageLink + name + ")\n" + rest;
            (forall k :: |s| - |rest| <= k < |s| && LineStart(s, k) ==> ImageMarkupEnd(s, k).None?)
            ==> RemoveImageLines(s, 0) == LStrip(rest)
  {
    var pre := "![" + alt + ImageLink + name + ")\n";
    var s := pre + rest;
    var j := 2 + |alt|;
    var m := j + |ImageLink| + |name|;
    assert |pre| == m + 2;
    assert s[..|pre|] == pre && s[m + 2..] == rest;
    assert forall k :: 2 <= k < j ==> s[k] == alt[k - 2];
    assert forall k :: j + |ImageLink| <= k < m ==> s[k] == name[k - j - |ImageLink|];
    assert s[j..j + |ImageLink|] == ImageLink;
    assert s[m] == ')' && s[m + 1] == '\n';
    MarkupEndAt(s, 0, j, m);
    var e := SpaceEnd(s, m + 1);
    assert e == SpaceEnd(s, m + 2);
    SpaceEndStrips(s, m + 2);
    if (forall k :: m + 2 <= k < |s| && LineStart(s, k) ==> ImageMarkupEnd(s, k).None?) {
      RemoveFirstMatch(s, e);
    }
  }

  /** A draft without image markup lines keeps the body of the title/body split. */
  lemma PostWithoutImages(lines: seq<string>, stem: string)
    requires var body := SplitDraft(lines, stem).1;
             forall k :: 0 <= k < |body| && LineStart(body, k) ==> ImageMarkupEnd(body, k).None?
    ensures ReadFirstPost(lines, stem).0 == SplitDraft(lines, stem).0
    ensures ReadFirstPost(lines, stem).1 == LStrip(SplitDraft(lines, stem).1)
  {
    var body := SplitDraft(lines, stem).1;
    RemoveNothing(body, 0);
    assert body[0..] == body;
  }

  // ================================================================ hashtags

  const CommonTags: seq<string> := ["애니메이션", "애니추천", "일본애니", "2025애니", "애니리뷰"]

  /** `genre_map`, in insertion order. */
  const GenreMap: seq<(string, string)> := [
    ("액션", "액션애니"), ("판타지", "판타지애니"), ("로맨스", "로맨스애니"), ("개그", "개그애니"),
    ("코미디", "개그애니"), ("호러", "호러애니"), ("공포", "호러애니"), ("미스터리", "미스터리애니"),
    ("스포츠", "스포츠애니"), ("isekai", "이세계애니"), ("이세계", "이세계애니"), ("마법", "마법소녀"),
    ("학원", "학원물"), ("음악", "음악애니")]

  const GenreTagSet: set<string> := {"액션애니", "판타지애니", "로맨스애니", "개그애니", "호러애니", "미스터리애니",
                                     "스포츠애니", "이세계애니", "마법소녀", "학원물", "음악애니"}

  const FallbackTags: seq<string> := ["애니감상", "오타쿠", "신작애니", "애니정보", "만화"]

  const TagLimit := 10
  const GenreStop := 9
  const WorkNameLimit := 30

  /** `(title + " " + body).lower()`, lowering ASCII letters. */
  function Combined(title: string, body: string): string { AsciiLower(title + " " + body) }

  /** The genre loop: add each matching genre tag not yet present; stop once there are nine tags. */
  function GenreStep(combined: string, pairs: seq<(string, string)>, tags: seq<string>): seq<string> {
    if pairs == [] then tags
    else
      var (keyword, tag) := pairs[0];
      if Contains(combined, keyword) && tag !in tags then
        if |tags + [tag]| >= GenreStop then tags + [tag] else GenreStep(combined, pairs[1..], tags + [tag])
      else GenreStep(combined, pairs[1..], tags)
  }

  /** The work-name tag: spaces and slashes removed, added when short enough, non-empty and new. */
  function WorkTag(workName: string, tags: seq<string>): seq<string> {
    if |workName| > 0 && |workName| <= WorkNameLimit then
      var clean := RemoveChar(RemoveChar(workName, ' '), '/');
      if |clean| > 0 && clean !in tags then [clean] else []
    else []
  }

  function YearTag(combined: string): seq<string> {
    if Contains(combined, "2026") then ["2026년애니"]
    else if Contains(combined, "2025") then ["2025년애니"]
    else []
  }

  function SeasonTag(combined: string): seq<string> {
    if Contains(combined, "겨울") || Contains(combined, "winter") then ["겨울애니"]
    else if Contains(combined, "봄") || Contains(combined, "spring") then ["봄애니"]
    else if Contains(combined, "여름") || Contains(combined, "summer") then ["여름애니"]
    else if Contains(combined, "가을") || Contains(combined, "autumn") || Contains(combined, "fall") then ["가을애니"]
    else []
  }

  /** The `tags` list before de-duplication. */
  function Candidates(title: string, body: string, workName: string): seq<string> {
    var c := Combined(title, body);
    var g := GenreStep(c, GenreMap, CommonTags);
    g + WorkTag(workName, g) + YearTag(c) + SeasonTag(c)
  }

  /** The de-duplication loop: keep first occurrences, stop at ten. */
  function DedupeCap(tags: seq<string>, final: seq<string>): seq<string>
    requires |final| < TagLimit
  {
    if tags == [] then final
    else
      var f := if tags[0] in final then final else final + [tags[0]];
      if |f| >= TagLimit then f else DedupeCap(tags[1..], f)
  }

  /** The fallback loop: add unseen fallbacks until there are ten. */
  function Fill(fallbacks: seq<string>, final: seq<string>): seq<string> {
    if fallbacks == [] || |final| >= TagLimit then final
    else Fill(fallbacks[1..], if fallbacks[0] in final then final else final + [fallbacks[0]])
  }

  function FinalTags(title: string, body: string, workName: string): seq<string> {
    Fill(FallbackTags, DedupeCap(Candidates(title, body, workName), []))
  }

  function Hashed(tags: seq<string>): (r: seq<string>)
    ensures |r| == |tags| && forall i :: 0 <= i < |tags| ==> r[i] == "#" + tags[i]
  {
    seq(|tags|, i requires 0 <= i < |tags| => "#" + tags[i])
  }

  function HashtagText(tags: seq<string>): string { Join(" ", Hashed(TakeFirst(tags, TagLimit))) }

  /** The genre loop of `generate_hashtags`. */
  method AddGenreTags(combined: string) returns (tags: seq<string>)
    ensures tags == GenreStep(combined, GenreMap, CommonTags)
  {
    tags := CommonTags;
    var i := 0;
    while i < |GenreMap|
      invariant 0 <= i <= |GenreMap|
      invariant GenreStep(combined, GenreMap, CommonTags) == GenreStep(combined, GenreMap[i..], tags)
    {
      var (keyword, tag) := GenreMap[i];
      assert GenreMap[i..][1..] == GenreMap[i + 1..];
      if Contains(combined, keyword) && tag !in tags {
        tags := tags + [tag];
        if |tags| >= GenreStop {
          return;
        }
      }
      i := i + 1;
    }
  }

  /** The de-duplication loop of `generate_hashtags`. */
  method DedupeTags(tags: seq<string>) returns (final: seq<string>)
    ensures final == DedupeCap(tags, [])
  {
    final := [];
    var j := 0;
    while j < |tags|
      invariant 0 <= j <= |tags| && |final| < TagLimit
      invariant DedupeCap(tags, []) == DedupeCap(tags[j..], final)
    {
      assert tags[j..][1..] == tags[j + 1..];
      var t := tags[j];
      if t !in final {
        final := final + [t];
      }
      if |final| >= TagLimit {
        return;
      }
      j := j + 1;
    }
  }

  /** The fallback loop of `generate_hashtags`. */
  method AddFallbacks(start: seq<string>) returns (final: seq<string>)
    ensures final == Fill(FallbackTags, start)
  {
    final := start;
    var k := 0;
    while k < |FallbackTags|
      invariant 0 <= k <= |FallbackTags|
      invariant Fill(FallbackTags, start) == Fill(FallbackTags[k..], final)
    {
      assert FallbackTags[k..][1..] == FallbackTags[k + 1..];
      if |final| >= TagLimit {
        return;
      }
      var fb := FallbackTags[k];
      if fb !in final {
        final := final + [fb];
      }
      k := k + 1;
    }
  }

  /**
   * `generate_hashtags`. `workName` is the title after the two bracket- and
   * separator-removing substitutions.
   */
  method GenerateHashtags(title: string, body: string, workName: string) returns (hashtags: string)
    ensures hashtags == HashtagText(FinalTags(title, body, workName))
  {
    var combined := AsciiLower(title + " " + body);
    var tags := AddGenreTags(combined);
    tags := tags + WorkTag(workName, tags) + YearTag(combined) + SeasonTag(combined);
    var final := DedupeTags(tags);
    final := AddFallbacks(final);
    hashtags := Join(" ", Hashed(TakeFirst(final, TagLimit)));
  }

  // ---------------------------------------------------------------- hashtag properties

  predicate DistinctTags(s: seq<string>) { forall i, j :: 0 <= i < j < |s| ==> s[i] != s[j] }

  lemma {:induction false} GenreStepFacts(combined: string, pairs: seq<(string, string)>, tags: seq<string>)
    requires |tags| < GenreStop && DistinctTags(tags)
    requires forall p :: p in pairs ==> p.1 in GenreTagSet
    ensures var g := GenreStep(combined, pairs, tags);
            && tags <= g && |g| <= GenreStop && DistinctTags(g)
            && forall t :: t in g ==> t in tags || t in GenreTagSet
  {
    if pairs != [] {
      var (keyword, tag) := pairs[0];
      assert pairs[0] in pairs;
      if Contains(combined, keyword) && tag !in tags {
        var t2 := tags + [tag];
        assert DistinctTags(t2) by {
          forall i, j | 0 <= i < j < |t2| ensures t2[i] != t2[j] {
            if j == |tags| { assert t2[i] in tags; }
          }
        }
        if |t2| < GenreStop {
          GenreStepFacts(combined, pairs[1..], t2);
        }
      } else {
        GenreStepFacts(combined, pairs[1..], tags);
      }
    }
  }

  lemma DistinctSnoc(s: seq<string>, x: string)
    requires DistinctTags(s) && x !in s
    ensures DistinctTags(s + [x])
  {
    var t := s + [x];
    forall i, j | 0 <= i < j < |t| ensures t[i] != t[j] {
      if j == |s| { assert t[i] == s[i] && s[i] in s; } else { assert t[i] == s[i] && t[j] == s[j]; }
    }
  }

  /** The de-duplication extends what it had, stays distinct and stops at ten. */
  lemma {:induction false} DedupeCapShape(tags: seq<string>, final: seq<string>)
    requires |final| < TagLimit && DistinctTags(final)
    ensures var d := DedupeCap(tags, final);
            final <= d && |d| <= TagLimit && DistinctTags(d)
  {
    if tags != [] {
      if tags[0] !in final { DistinctSnoc(final, tags[0]); }
      var f := if tags[0] in final then final else final + [tags[0]];
      if |f| < TagLimit {
        DedupeCapShape(tags[1..], f);
      }
    }
  }

  /** The de-duplication keeps only what it had or was given. */
  lemma {:induction false} DedupeCapMembers(tags: seq<string>, final: seq<string>)
    requires |final| < TagLimit
    ensures forall t :: t in DedupeCap(tags, final) ==> t in final || t in tags
  {
    if tags != [] {
      var f := if tags[0] in final then final else final + [tags[0]];
      if |f| < TagLimit {
        DedupeCapMembers(tags[1..], f);
        assert tags == [tags[0]] + tags[1..];
      }
    }
  }

  /** De-duplicating a list that begins with distinct tags keeps that beginning. */
  lemma {:induction false} DedupeCapPrefix(pre: seq<string>, rest: seq<string>, final: seq<string>)
    requires |final| + |pre| < TagLimit && DistinctTags(final + pre)
    ensures final + pre <= DedupeCap(pre + rest, final)
  {
    if pre == [] {
      assert pre + rest == rest && final + pre == final;
      DedupeCapShape(rest, final);
    } else {
      assert (pre + rest)[0] == pre[0] && (pre + rest)[1..] == pre[1..] + rest;
      assert pre[0] !in final by {
        assert (final + pre)[|final|] == pre[0];
        forall i | 0 <= i < |final| ensures final[i] != pre[0] { assert (final + pre)[i] == final[i]; }
      }
      assert final + [pre[0]] + pre[1..] == final + pre;
      DedupeCapPrefix(pre[1..], rest, final + [pre[0]]);
    }
  }

  /** Number of elements of `fbs` missing from `final`. */
  function CountMissing(fbs: seq<string>, final: seq<string>): nat {
    if fbs == [] then 0 else (if fbs[0] in final then 0 else 1) + CountMissing(fbs[1..], final)
  }

  lemma {:induction false} FillFacts(fbs: seq<string>, final: seq<string>)
    requires DistinctTags(fbs) && DistinctTags(final)
    ensures var f := Fill(fbs, final);
            && final <= f && DistinctTags(f)
            && |f| == if |final| >= TagLimit then |final|
                      else if |final| + CountMissing(fbs, final) < TagLimit then |final| + CountMissing(fbs, final)
                      else TagLimit
  {
    if fbs != [] && |final| < TagLimit {
      var next := if fbs[0] in final then final else final + [fbs[0]];
      assert DistinctTags(next) by {
        forall i, j | 0 <= i < j < |next| ensures next[i] != next[j] {
          if j == |final| { assert next[i] in final; }
        }
      }
      assert DistinctTags(fbs[1..]);
      FillFacts(fbs[1..], next);
      assert CountMissing(fbs[1..], next) == CountMissing(fbs[1..], final) by {
        CountMissingExtend(fbs[1..], final, fbs[0]);
      }
    }
  }

  lemma {:induction false} CountMissingExtend(fbs: seq<string>, final: seq<string>, x: string)
    requires x !in fbs
    ensures CountMissing(fbs, final + [x]) == CountMissing(fbs, final)
  {
    if fbs != [] {
      assert fbs[0] in final + [x] <==> fbs[0] in final;
      CountMissingExtend(fbs[1..], final, x);
    }
  }

  /** If at most `k` of the distinct fallbacks are present, at least `|fbs| - k` are missing. */
  lemma {:induction false} CountMissingBound(fbs: seq<string>, final: seq<string>, allowed: set<string>)
    requires DistinctTags(fbs)
    requires forall t :: t in fbs && t in final ==> t in allowed
    ensures CountMissing(fbs, final) + |allowed| >= |fbs|
  {
    if fbs != [] {
      if fbs[0] in final {
        assert fbs[0] in allowed;
        assert DistinctTags(fbs[1..]);
        assert forall t :: t in fbs[1..] && t in final ==> t in allowed - {fbs[0]} by {
          forall t | t in fbs[1..] && t in final ensures t in allowed - {fbs[0]} {
            var i :| 1 <= i < |fbs| && fbs[i] == t;
          }
        }
        CountMissingBound(fbs[1..], final, allowed - {fbs[0]});
      } else {
        CountMissingBound(fbs[1..], final, allowed);
      }
    }
  }

  const YearTags: set<string> := {"2026년애니", "2025년애니"}
  const SeasonTags: set<string> := {"겨울애니", "봄애니", "여름애니", "가을애니"}

  lemma YearSeasonTagsFrom(c: string)
    ensures forall t :: t in YearTag(c) ==> t in YearTags
    ensures forall t :: t in SeasonTag(c) ==> t in SeasonTags
  {
  }

  lemma LiteralsDistinct()
    ensures DistinctTags(CommonTags) && DistinctTags(FallbackTags)
  {
  }

  /** No fallback can already be among the literal tags. */
  lemma FallbacksAreNew()
    ensures forall t :: t in FallbackTags ==> t !in CommonTags && t !in GenreTagSet && t !in YearTags && t !in SeasonTags
  {
  }

  /** The year and season tags are none of the other literal tags. */
  lemma YearSeasonAreNew()
    ensures forall t :: t in YearTags + SeasonTags ==> t !in CommonTags && t !in GenreTagSet
    ensures YearTags !! SeasonTags
  {
  }

  lemma LiteralsHaveNoSpace()
    ensures forall t :: t in CommonTags || t in FallbackTags ==> ' ' !in t
    ensures forall t :: t in GenreTagSet || t in YearTags || t in SeasonTags ==> ' ' !in t
  {
  }

  /** The work tag is at most one tag, without spaces. */
  lemma WorkTagFacts(workName: string, tags: seq<string>)
    ensures |WorkTag(workName, tags)| <= 1
    ensures forall t :: t in WorkTag(workName, tags) ==> ' ' !in t && t !in tags
  {
  }

  /** Every candidate tag is a common, genre, work, year or season tag. */
  lemma CandidatesFrom(title: string, body: string, workName: string)
    ensures var c := Combined(title, body);
            var g := GenreStep(c, GenreMap, CommonTags);
            var w := WorkTag(workName, g);
            && CommonTags <= Candidates(title, body, workName)
            && forall t :: t in Candidates(title, body, workName)
                 ==> t in CommonTags || t in GenreTagSet || t in w || t in YearTag(c) || t in SeasonTag(c)
  {
    var c := Combined(title, body);
    LiteralsDistinct();
    assert forall p :: p in GenreMap ==> p.1 in GenreTagSet;
    GenreStepFacts(c, GenreMap, CommonTags);
  }

  /** De-duplicating candidates that start with the common tags keeps them in front. */
  lemma DedupeKeepsCommon(cands: seq<string>)
    requires CommonTags <= cands
    ensures var d := DedupeCap(cands, []);
            && CommonTags <= d && |d| <= TagLimit && DistinctTags(d)
            && forall t :: t in d ==> t in cands
  {
    LiteralsDistinct();
    var rest := cands[5..];
    assert cands == CommonTags + rest;
    assert [] + CommonTags == CommonTags;
    DedupeCapPrefix(CommonTags, rest, []);
    DedupeCapShape(cands, []);
    DedupeCapMembers(cands, []);
  }

  /** With at most five tags of which at most `w` are fallbacks, filling reaches ten. */
  lemma FillReachesTen(d: seq<string>, w: seq<string>)
    requires CommonTags <= d && |d| <= TagLimit && DistinctTags(d) && |w| <= 1
    requires forall t :: t in d && t in FallbackTags ==> t in w
    ensures var f := Fill(FallbackTags, d);
            |f| == TagLimit && DistinctTags(f) && f[..5] == CommonTags
  {
    LiteralsDistinct();
    if |d| == 5 {
      assert d == CommonTags;
      FallbacksAreNew();
      CountMissingBound(FallbackTags, d, {});
    } else {
      assert |Elems(w)| <= 1 by {
        if |w| == 1 { assert Elems(w) == {w[0]}; } else { assert Elems(w) == {}; }
      }
      CountMissingBound(FallbackTags, d, Elems(w));
    }
    FillFacts(FallbackTags, d);
    assert d[..5] == CommonTags;
  }

  /**
   * Whatever the candidates, as long as they start with the common tags and at most one
   * of them (`w`) can be a fallback, de-duplication plus filling gives exactly ten
   * distinct tags, the common ones first.
   */
  lemma FinalFromFacts(cands: seq<string>, w: seq<string>)
    requires CommonTags <= cands && |w| <= 1
    requires forall t :: t in cands && t in FallbackTags ==> t in w
    ensures var f := Fill(FallbackTags, DedupeCap(cands, []));
            |f| == TagLimit && DistinctTags(f) && f[..5] == CommonTags
  {
    DedupeKeepsCommon(cands);
    FillReachesTen(DedupeCap(cands, []), w);
  }

  /** Ten tags without spaces, hashed and joined, split back into the hashed tags. */
  lemma HashtagTextSplits(f: seq<string>)
    requires |f| == TagLimit && forall t :: t in f ==> ' ' !in t
    ensures Split(HashtagText(f), ' ') == Hashed(f)
    ensures forall i :: 0 <= i < |f| ==> Hashed(f)[i][0] == '#'
  {
    assert TakeFirst(f, TagLimit) == f;
    var h := Hashed(f);
    forall i | 0 <= i < |h| ensures ' ' !in h[i] {
      assert f[i] in f;
      assert h[i] == "#" + f[i];
    }
    SplitJoin(h, ' ');
  }

  /**
   * `generate_hashtags` yields exactly ten distinct tags, the five common ones first,
   * and the text is those ten, each prefixed with `#`, separated by single spaces.
   */
  lemma HashtagsExactlyTen(title: string, body: string, workName: string)
    ensures var f := FinalTags(title, body, workName);
            && |f| == TagLimit && DistinctTags(f) && f[..5] == CommonTags
            && Split(HashtagText(f), ' ') == Hashed(f)
            && forall i :: 0 <= i < |f| ==> Hashed(f)[i][0] == '#'
  {
    var c := Combined(title, body);
    var w := WorkTag(workName, GenreStep(c, GenreMap, CommonTags));
    var cands := Candidates(title, body, workName);
    CandidatesFrom(title, body, workName);
    YearSeasonTagsFrom(c);
    FallbacksAreNew();
    WorkTagFacts(workName, GenreStep(c, GenreMap, CommonTags));
    FinalFromFacts(cands, w);
    var f := FinalTags(title, body, workName);
    forall t | t in f ensures ' ' !in t {
      TagHasNoSpace(title, body, workName, t);
    }
    HashtagTextSplits(f);
  }

  lemma {:induction false} FillMembers(fbs: seq<string>, final: seq<string>)
    ensures forall t :: t in Fill(fbs, final) ==> t in final || t in fbs
  {
    if fbs != [] && |final| < TagLimit {
      var next := if fbs[0] in final then final else final + [fbs[0]];
      FillMembers(fbs[1..], next);
      assert fbs == [fbs[0]] + fbs[1..];
    }
  }

  /** Every final tag is a candidate or a fallback. */
  lemma FinalTagsFrom(title: string, body: string, workName: string)
    ensures forall t :: t in FinalTags(title, body, workName) ==> t in Candidates(title, body, workName) || t in FallbackTags
  {
    var cands := Candidates(title, body, workName);
    DedupeCapMembers(cands, []);
    FillMembers(FallbackTags, DedupeCap(cands, []));
  }

  /** No tag contains a space: the literals have none, and the work tag had them removed. */
  lemma TagHasNoSpace(title: string, body: string, workName: string, t: string)
    requires t in FinalTags(title, body, workName)
    ensures ' ' !in t
  {
    FinalTagsFrom(title, body, workName);
    CandidatesFrom(title, body, workName);
    var c := Combined(title, body);
    YearSeasonTagsFrom(c);
    LiteralsHaveNoSpace();
    WorkTagFacts(workName, GenreStep(c, GenreMap, CommonTags));
  }

  /**
   * A year tag that is not the work tag itself means the text names that year, and
   * `2025년애니` only appears when "2026" does not.
   */
  lemma YearPriority(title: string, body: string, workName: string)
    ensures var c := Combined(title, body);
            var w := WorkTag(workName, GenreStep(c, GenreMap, CommonTags));
            && ("2026년애니" in FinalTags(title, body, workName) && "2026년애니" !in w ==> Contains(c, "2026"))
            && (("2025년애니" in FinalTags(title, body, workName) && "2025년애니" !in w)
                 ==> Contains(c, "2025") && !Contains(c, "2026"))
  {
    FinalTagsFrom(title, body, workName);
    CandidatesFrom(title, body, workName);
    var c := Combined(title, body);
    YearSeasonTagsFrom(c);
    FallbacksAreNew();
    YearSeasonAreNew();
  }

  /** Likewise the season tags: winter, then spring, then summer, then autumn. */
  lemma SeasonPriority(title: string, body: string, workName: string)
    ensures var c := Combined(title, body);
            var w := WorkTag(workName, GenreStep(c, GenreMap, CommonTags));
            var f := FinalTags(title, body, workName);
            var winter := Contains(c, "겨울") || Contains(c, "winter");
            var spring := Contains(c, "봄") || Contains(c, "spring");
            var summer := Contains(c, "여름") || Contains(c, "summer");
            && ("겨울애니" in f && "겨울애니" !in w ==> winter)
            && ("봄애니" in f && "봄애니" !in w ==> spring && !winter)
            && ("여름애니" in f && "여름애니" !in w ==> summer && !winter && !spring)
            && ("가을애니" in f && "가을애니" !in w ==> !winter && !spring && !summer)
  {
    FinalTagsFrom(title, body, workName);
    CandidatesFrom(title, body, workName);
    var c := Combined(title, body);
    YearSeasonTagsFrom(c);
    FallbacksAreNew();
    YearSeasonAreNew();
  }
}
