// Game_Interpreter: the resumable event-command machine.  Each Update call
// runs a bounded loop that checks what blocks it, resumes a pending
// continuation or dispatches the command under the cursor, and moves the
// cursor on only when the command reports it is done.  The shared stores
// are the World object each call is handed.

module Interpreter {
  import opened EventCommands
  import opened GameState
  import opened Commands
  import opened Scan

  /** The one-slot continuation: none, the choice-branch resumption, or
      the default resumption that steps past the command. */
  datatype Continuation = NoContinuation | ContinueChoices | ContinueDefault

  /** One command an Update call dispatched: the cursor it ran at, the
      cursor ExecuteCommand left, its answer, and the cursor after the
      iteration. */
  datatype Move = Move(before: int, mid: int, done: bool, after: int)

  /** The commands one Update call dispatched, in order: the cursor moves
      one past a command only when it answered true and stays where the
      command left it otherwise; only the last may have answered false, and
      each ran at or past where the one before it left the cursor. */
  ghost predicate Trace(moves: seq<Move>)
  {
    && (forall k :: 0 <= k < |moves| ==>
          moves[k].before <= moves[k].mid
          && moves[k].after == if moves[k].done then moves[k].mid + 1 else moves[k].mid)
    && (forall k :: 0 <= k < |moves| - 1 ==> moves[k].done && moves[k].after <= moves[k + 1].before)
  }

  /** The most iterations one Update call runs. */
  const LoopLimit := 10000

  /** `duration * DEFAULT_FPS / 10` frames, and one frame for 0. */
  function WaitFrames(duration: int): (r: int)
    ensures duration >= 0 ==> r >= 1
    ensures duration < 0 ==> r < 0
  {
    if duration == 0 then 1
    else
      assert duration * DefaultFps == (duration * 6) * 10;
      CDiv(duration * DefaultFps, 10)
  }

  /** A wait of n tenths of a second lasts 6n frames; 0 waits one frame. */
  lemma WaitFramesExact(duration: int)
    ensures WaitFrames(duration) == if duration == 0 then 1 else duration * 6
  {
    if duration != 0 {
      var a := duration * DefaultFps;
      assert a == (duration * 6) * 10;
      if a < 0 {
        assert Abs(a) == (-duration * 6) * 10;
      }
    }
  }

  /** SetupChoices' effect on the message: the choices start after the
      text, at most four of them are shown, none is disabled. */
  function WithChoices(m: Message, choices: seq<string>): (r: Message)
    ensures r.choiceStart == |m.texts| && r.choiceMax == |choices| && r.choiceDisabled == {}
    ensures |r.texts| == |m.texts| + (if |choices| < 4 then |choices| else 4) && r.texts[..|m.texts|] == m.texts
    ensures forall k :: 0 <= k < |r.texts| - |m.texts| ==> r.texts[|m.texts| + k] == choices[k]
  {
    m.(choiceStart := |m.texts|, choiceMax := |choices|, choiceDisabled := {},
       texts := m.texts + choices[..if |choices| < 4 then |choices| else 4])
  }

  /** The message checks at the head of Update's loop: the main interpreter
      waits while a message is pending (or the player is boarding); a
      parallel one while its own message is shown or pending. */
  predicate MessageHolds(mainFlag: bool, boarding: bool, m: Message, eventId: int): (r: bool)
    ensures m.messageWaiting && (mainFlag || m.ownerId == eventId) ==> r
    ensures !mainFlag && m.ownerId != eventId ==> !r
    ensures !boarding && !m.visible && !m.messageWaiting ==> !r
  {
    if mainFlag then boarding || m.messageWaiting
    else (m.visible || m.messageWaiting) && m.ownerId == eventId
  }

  /** The message CommandShowMessage leaves, before any folding: this
      command's text and the continuation lines after it, owned by `owner`. */
  function Opened(m: Message, list: seq<EventCommand>, index: nat, owner: int): (r: Message)
    requires index < |list|
    ensures r.messageWaiting && r.ownerId == owner
    ensures r.(messageWaiting := m.messageWaiting, ownerId := m.ownerId, texts := m.texts) == m
  {
    var last := index + RunLength(list, index);
    m.(messageWaiting := true, ownerId := owner,
       texts := m.texts + [list[index].str] + Lines(list, index + 1, last + 1))
  }

  /** The cursor, continuation and message CommandShowMessage leaves once
      its text ends at `last` with `lines` lines: a following choice block
      is folded in when it passes the unsigned fit test, a following number
      input when there are fewer than four lines; otherwise the cursor stays
      on the last line. */
  function Fold(list: seq<EventCommand>, last: nat, lines: nat, base: Message, cont: Continuation): (r: (int, Continuation, Message))
    requires last < |list| && WellFormed(list)
    ensures r.0 == last || r.0 == last + 1
    ensures r.0 == last + 1
            <==> last + 1 < |list|
                 && ((list[last + 1].code == ShowChoice && ChoicesFitAsWritten(lines, |Choices(list, last)|))
                     || (list[last + 1].code == InputNumber && lines < 4))
  {
    if last + 1 < |list| && list[last + 1].code == ShowChoice && ChoicesFitAsWritten(lines, |Choices(list, last)|) then
      (last + 1, ContinueChoices,
       WithChoices(base.(choiceStart := lines, choiceCancelType := list[last + 1].parameters[0]), Choices(list, last)))
    else if last + 1 < |list| && list[last + 1].code == InputNumber && lines < 4 then
      (last + 1, cont,
       base.(numInputStart := lines, numInputDigitsMax := list[last + 1].parameters[0],
             numInputVariableId := list[last + 1].parameters[1]))
    else
      (last, cont, base)
  }

  /** The fold keeps the message's text as a prefix; the cursor ends on the
      last line (nothing folded) or on the folded command, and a folded
      choice block passed the fit test, so it shares the window's four rows
      with the lines whenever there are at most four of them. */
  lemma FoldEffect(list: seq<EventCommand>, last: nat, lines: nat, base: Message, cont: Continuation)
    requires last < |list| && WellFormed(list)
    ensures var r := Fold(list, last, lines, base, cont);
            && r.2.messageWaiting == base.messageWaiting && r.2.ownerId == base.ownerId
            && base.texts <= r.2.texts
            && (r.0 == last || r.0 == last + 1)
            && (r.0 == last ==> r.1 == cont && r.2 == base)
            && (r.0 == last + 1 && list[last + 1].code == ShowChoice
                ==> r.1 == ContinueChoices
                    && |r.2.texts| == |base.texts| + (if |Choices(list, last)| < 4 then |Choices(list, last)| else 4)
                    && ChoicesFitAsWritten(lines, |Choices(list, last)|)
                    && (lines <= 4 ==> lines + |Choices(list, last)| <= 4))
            && (r.0 == last + 1 && list[last + 1].code == InputNumber
                ==> r.1 == cont && lines < 4 && r.2.numInputStart == lines && r.2.texts == base.texts)
  {
    var choices := Choices(list, last);
    if last + 1 < |list| && list[last + 1].code == ShowChoice && ChoicesFitAsWritten(lines, |choices|) {
      var shown := choices[..if |choices| < 4 then |choices| else 4];
      assert base.texts <= base.texts + shown;
    }
  }

  /** As written, a message of more than four lines still folds a
      following choice block in: the options land past the window's four
      rows. */
  lemma FoldOverflows(list: seq<EventCommand>, last: nat, lines: nat, base: Message, cont: Continuation)
    requires last + 1 < |list| && WellFormed(list) && list[last + 1].code == ShowChoice
    requires 4 < lines < 0x1_0000_0000 && |Choices(list, last)| <= 4
    ensures var r := Fold(list, last, lines, base, cont);
            && r.0 == last + 1 && r.1 == ContinueChoices
            && (Choices(list, last) != [] ==> lines + |Choices(list, last)| > 4)
  {
    assert ChoicesFitAsWritten(lines, |Choices(list, last)|);
  }

  /** What CommandShowMessage leaves once the window is free: the message
      is pending and owned by the event, and its text gains this command's
      line and the N continuation lines before anything folded. */
  lemma ShowMessageEffect(list: seq<EventCommand>, index: nat, m: Message, owner: int, cont: Continuation)
    requires index < |list| && WellFormed(list)
    ensures var last := index + RunLength(list, index);
            var lines := last - index + 1;
            var r := Fold(list, last, lines, Opened(m, list, index, owner), cont);
            && r.2.messageWaiting && r.2.ownerId == owner
            && m.texts + [list[index].str] + Lines(list, index + 1, last + 1) <= r.2.texts
  {
    var last := index + RunLength(list, index);
    var base := Opened(m, list, index, owner);
    assert base.texts == m.texts + [list[index].str] + Lines(list, index + 1, last + 1);
    FoldEffect(list, last, last - index + 1, base, cont);
  }

  class GameInterpreter {
    var list: seq<EventCommand>
    var index: int
    var waitCount: int
    var continuation: Continuation
    var child: GameInterpreter?
    var updating: bool
    var clearChild: bool
    var runned: bool
    var mainFlag: bool
    var depth: int
    var eventId: int
    var mapId: int
    var loopCount: int
    var triggeredByDecisionKey: bool
    var waitingBattleAnim: bool
    var waitingPanScreen: bool
    var buttonTimer: int
    var debugX: int
    var debugY: int
    /** The commands dispatched so far. */
    ghost var executed: nat
    ghost var Repr: set<GameInterpreter>

    /** The cursor and the list every handler reads: the cursor is never
        negative and every command carries the parameters its handler reads. */
    predicate Ready()
      reads this`index, this`list
    {
      0 <= index && WellFormed(list)
    }

    ghost predicate Valid()
      reads this, Repr
      decreases Repr
    {
      this in Repr && Ready()
      && (child != null ==>
            child in Repr && child.Repr <= Repr && this !in child.Repr && child.Valid())
    }

    predicate IsRunning(): (r: bool)
      reads this`list
      ensures r <==> |list| > 0
    {
      list != []
    }

    constructor (depth: int, mainFlag: bool)
      ensures Valid() && fresh(Repr) && Repr == {this}
      ensures this.depth == depth && this.mainFlag == mainFlag
      ensures index == 0 && !updating && !clearChild && !runned && child == null
      ensures list == [] && mapId == 0 && eventId == 0 && waitCount == 0
      ensures continuation == NoContinuation
    {
      this.depth := depth;
      this.mainFlag := mainFlag;
      index := 0;
      updating := false;
      clearChild := false;
      runned := false;
      mapId := 0;
      eventId := 0;
      waitCount := 0;
      waitingBattleAnim := false;
      waitingPanScreen := false;
      triggeredByDecisionKey := false;
      continuation := NoContinuation;
      buttonTimer := 0;
      child := null;
      list := [];
      executed := 0;
      Repr := {this};
    }

    /** Clear: forgets the event; a child that is in the middle of its own
        Update is only marked for removal. The cursor is left alone. */
    method Clear()
      requires Valid()
      modifies this
      ensures Valid() && Repr == old(Repr)
      ensures list == [] && mapId == 0 && eventId == 0 && waitCount == 0
      ensures continuation == NoContinuation && !triggeredByDecisionKey && buttonTimer == 0
      ensures !waitingBattleAnim && !waitingPanScreen
      ensures child == if old(child) != null && old(child.updating) then old(child) else null
      ensures clearChild == ((old(child) != null && old(child.updating)) || old(clearChild))
      ensures index == old(index) && mainFlag == old(mainFlag) && depth == old(depth)
      ensures updating == old(updating) && runned == old(runned) && executed == old(executed)
    {
      ResetRun();
      DropChild();
      list := [];
    }

    /** The per-run state Clear resets. */
    method ResetRun()
      modifies this`mapId, this`eventId, this`waitCount, this`waitingBattleAnim, this`waitingPanScreen,
               this`triggeredByDecisionKey, this`continuation, this`buttonTimer
      ensures mapId == 0 && eventId == 0 && waitCount == 0
      ensures continuation == NoContinuation && !triggeredByDecisionKey && buttonTimer == 0
      ensures !waitingBattleAnim && !waitingPanScreen
    {
      mapId, eventId, waitCount, buttonTimer := 0, 0, 0, 0;
      waitingBattleAnim, waitingPanScreen, triggeredByDecisionKey := false, false, false;
      continuation := NoContinuation;
    }

    /** Clear's treatment of the child. */
    method DropChild()
      requires Valid()
      modifies this`child, this`clearChild
      ensures Valid()
      ensures child == if old(child) != null && old(child.updating) then old(child) else null
      ensures clearChild == ((old(child) != null && old(child.updating)) || old(clearChild))
    {
      if child != null {
        if child.updating {
          clearChild := true;
        } else {
          child := null;
        }
      }
    }

    /** Setup: starts `commands` for event `id` from its first command. */
    method Setup(commands: seq<EventCommand>, id: int, startedByDecisionKey: bool, dbgX: int, dbgY: int, g: World)
      requires Valid() && WellFormed(commands)
      modifies this, g`message
      ensures Valid() && Repr == old(Repr)
      ensures list == commands && index == 0 && eventId == id && mapId == g.mapId
      ensures triggeredByDecisionKey == startedByDecisionKey && debugX == dbgX && debugY == dbgY
      ensures waitCount == 0 && continuation == NoContinuation
      ensures child == if old(child) != null && old(child.updating) then old(child) else null
      ensures clearChild == ((old(child) != null && old(child.updating)) || old(clearChild))
      ensures mainFlag == old(mainFlag) && depth == old(depth) && updating == old(updating)
      ensures g.message == if mainFlag && depth == 0 then old(g.message).(faceName := "") else old(g.message)
    {
      Clear();
      Start(commands, id, g.mapId, startedByDecisionKey, dbgX, dbgY);
      if mainFlag && depth == 0 {
        g.message := g.message.(faceName := "");
      }
    }

    /** The fields Setup sets once the interpreter is cleared. */
    method Start(commands: seq<EventCommand>, id: int, map0: int, startedByDecisionKey: bool, dbgX: int, dbgY: int)
      modifies this`list, this`index, this`eventId, this`mapId, this`triggeredByDecisionKey, this`debugX, this`debugY
      ensures list == commands && index == 0 && eventId == id && mapId == map0
      ensures triggeredByDecisionKey == startedByDecisionKey && debugX == dbgX && debugY == dbgY
    {
      mapId, eventId, list := map0, id, commands;
      triggeredByDecisionKey, debugX, debugY := startedByDecisionKey, dbgX, dbgY;
      index := 0;
    }

    method SetupWait(duration: int)
      modifies this`waitCount
      ensures waitCount == WaitFrames(duration)
    {
      if duration == 0 {
        waitCount := 1;
      } else {
        waitCount := CDiv(duration * DefaultFps, 10);
      }
    }

    // -------------------------------------------------------------------
    // Structural scans

    /** SkipTo: moves the cursor to the next command with code `code` or
        `code2` within the indentation bounds, failing at a command indented
        below the minimum; see SkipTarget. */
    method SkipTo(code: int, code2: int, minIndent: int, maxIndent: int, otherwiseEnd: bool) returns (ok: bool)
      requires Ready()
      requires (minIndent >= 0 && maxIndent >= 0) || index < |list|
      modifies this`index
      ensures Ready()
      ensures (ok, index) == SkipTarget(list, old(index), code, code2, minIndent, maxIndent, otherwiseEnd)
    {
      ok, index := Skip(list, index, code, code2, minIndent, maxIndent, otherwiseEnd);
    }

    /** SkipTo's scan from `start` on a list, with the cursor it leaves. */
    static method Skip(l: seq<EventCommand>, start: nat, code: int, code2: int, minIndent: int, maxIndent: int,
                       otherwiseEnd: bool) returns (ok: bool, at: nat)
      requires (minIndent >= 0 && maxIndent >= 0) || start < |l|
      ensures (ok, at) == SkipTarget(l, start, code, code2, minIndent, maxIndent, otherwiseEnd)
    {
      var c2, lo, hi := code2, minIndent, maxIndent;
      if c2 < 0 {
        c2 := code;
      }
      if lo < 0 {
        lo := l[start].indent;
      }
      if hi < 0 {
        hi := l[start].indent;
      }
      assert (c2, lo, hi) == SkipBounds(l, start, code, code2, minIndent, maxIndent);
      var idx := start;
      while idx < |l|
        invariant start <= idx && (idx <= |l| || idx == start)
        invariant ScanFrom(l, idx, code, c2, lo, hi) == ScanFrom(l, start, code, c2, lo, hi)
        decreases |l| - idx
      {
        if l[idx].indent < lo {
          return false, start;
        }
        if l[idx].indent <= hi && (l[idx].code == code || l[idx].code == c2) {
          return true, idx;
        }
        idx := idx + 1;
      }
      if otherwiseEnd {
        return true, idx;
      }
      return true, start;
    }

    /** GetChoices: the option strings of the choice block after the cursor. */
    method GetChoices() returns (choices: seq<string>)
      requires 0 <= index
      ensures choices == Choices(list, index)
    {
      var l, start := list, index;
      if start + 1 >= |l| {
        return [];
      }
      var ended;
      choices, ended := CollectOptions(l, start + 1, l[start + 1].indent);
      if ended && |choices| > 1 && choices[|choices| - 1] == "" {
        choices := choices[..|choices| - 1];
      }
    }

    /** GetChoices' loop: the options at `indent` from `from` on, up to the
        first end marker, and whether there is one. */
    static method CollectOptions(l: seq<EventCommand>, from: nat, indent: int) returns (choices: seq<string>, ended: bool)
      requires from <= |l|
      ensures choices == OptionStrings(l, from, indent) && ended == (EndAt(l, from, indent) < |l|)
    {
      choices := [];
      var k := from;
      while k < |l|
        invariant from <= k <= |l|
        invariant choices + OptionStrings(l, k, indent) == OptionStrings(l, from, indent)
        invariant EndAt(l, k, indent) == EndAt(l, from, indent)
        decreases |l| - k
      {
        if l[k].indent == indent {
          if l[k].code == ShowChoiceOption {
            choices := choices + [l[k].str];
          } else if l[k].code == ShowChoiceEnd {
            return choices, true;
          }
        }
        k := k + 1;
      }
      return choices, false;
    }

    /** SetupChoices: appends up to four choices to the message and installs
        the choice continuation. */
    method SetupChoices(choices: seq<string>, g: World)
      modifies this`continuation, g`message
      ensures g.message == WithChoices(old(g.message), choices)
      ensures continuation == ContinueChoices
    {
      g.message := g.message.(choiceStart := |g.message.texts|, choiceMax := |choices|, choiceDisabled := {});
      var i := 0;
      while i < 4 && i < |choices|
        invariant 0 <= i <= 4 && i <= |choices|
        invariant g.message == WithChoices(old(g.message), choices).(texts := old(g.message.texts) + choices[..i])
      {
        g.message := g.message.(texts := g.message.texts + [choices[i]]);
        i := i + 1;
      }
      continuation := ContinueChoices;
    }

    // -------------------------------------------------------------------
    // Continuations

    /** ContinuationChoices: clears the slot and walks to the branch whose
        number is the player's choice; see ChoiceWalk. */
    method ContinuationChoices(com: EventCommand, g: World) returns (ok: bool)
      requires Ready() && com.indent >= 0
      modifies this`index, this`continuation
      ensures Ready() && continuation == NoContinuation
      ensures (ok, index) == ChoiceWalk(list, old(index), com.indent, g.message.choiceResult)
    {
      continuation := NoContinuation;
      ok, index := Walk(list, index, com.indent, g.message.choiceResult);
    }

    /** ContinuationChoices' loop on a list: skip to the next option or end
        marker at `indent` and read its branch number, until it is `result`. */
    static method Walk(l: seq<EventCommand>, from: nat, indent: int, result: int) returns (ok: bool, at: nat)
      requires indent >= 0
      ensures (ok, at) == ChoiceWalk(l, from, indent, result)
    {
      at := from;
      while true
        invariant from <= at
        invariant ChoiceWalk(l, at, indent, result) == ChoiceWalk(l, from, indent, result)
        decreases |l| - at
      {
        if at >= |l| {
          return false, at;
        }
        WalkStep(l, at, indent, result);
        var found;
        found, at := Skip(l, at, ShowChoiceOption, ShowChoiceEnd, indent, indent, false);
        if !found {
          return false, at;
        }
        if |l[at].parameters| == 0 {
          return false, at;
        }
        var which := l[at].parameters[0];
        at := at + 1;
        if which > result {
          return false, at;
        }
        if which == result {
          return true, at;
        }
      }
    }

    /** DefaultContinuation: clears the slot and steps past the command. */
    method DefaultContinuation() returns (ok: bool)
      requires Ready()
      modifies this`index, this`continuation
      ensures Ready() && ok && continuation == NoContinuation && index == old(index) + 1
    {
      continuation := NoContinuation;
      index := index + 1;
      return true;
    }

    /** The continuation in the slot, run on `com`. */
    method RunContinuation(com: EventCommand, g: World) returns (ok: bool)
      requires Ready() && continuation != NoContinuation && com.indent >= 0
      modifies this`index, this`continuation
      ensures Ready() && continuation == NoContinuation && old(index) <= index
      ensures old(continuation) == ContinueDefault ==> ok && index == old(index) + 1
      ensures old(continuation) == ContinueChoices
              ==> (ok, index) == ChoiceWalk(list, old(index), com.indent, g.message.choiceResult)
    {
      if continuation == ContinueChoices {
        ok := ContinuationChoices(com, g);
      } else {
        ok := DefaultContinuation();
      }
    }

    // -------------------------------------------------------------------
    // Message commands

    /** CommandShowMessage: opens a message with this command's line and the
        continuation lines after it, and folds a following choice block or
        number input into it when they fit; busy message state refuses. */
    method CommandShowMessage(g: World) returns (ok: bool)
      requires Ready() && index < |list|
      modifies this`index, this`continuation, g`message
      ensures Ready()
      ensures ok == !(old(g.message.messageWaiting) || (!mainFlag && old(g.message.visible)))
      ensures !ok ==> index == old(index) && g.message == old(g.message) && continuation == old(continuation)
      ensures ok ==> var last := old(index) + RunLength(list, old(index));
                     (index, continuation, g.message)
                     == Fold(list, last, last - old(index) + 1, Opened(old(g.message), list, old(index), eventId),
                             old(continuation))
    {
      if g.message.messageWaiting {
        return false;
      }
      if !mainFlag && g.message.visible {
        return false;
      }
      OpenMessage(g);
      return true;
    }

    /** CommandShowMessage once the message window is free. */
    method OpenMessage(g: World)
      requires Ready() && index < |list|
      modifies this`index, this`continuation, g`message
      ensures Ready()
      ensures var last := old(index) + RunLength(list, old(index));
              (index, continuation, g.message)
              == Fold(list, last, last - old(index) + 1, Opened(old(g.message), list, old(index), eventId),
                      old(continuation))
    {
      ghost var shown := Opened(g.message, list, index, eventId);
      g.message := g.message.(messageWaiting := true, ownerId := eventId,
                              texts := g.message.texts + [list[index].str]);
      var lineCount := CollectLines(g);
      assert g.message == shown;
      ghost var last, cont := index, continuation;
      FoldFollowing(lineCount, g);
      assert (index, continuation, g.message) == Fold(list, last, lineCount, shown, cont);
    }

    /** The first half of CommandShowMessage's loop: appends the lines of the
        directly following continuation commands; the cursor ends on the
        last of them. */
    method CollectLines(g: World) returns (lineCount: nat)
      requires Ready() && index < |list|
      modifies this`index, g`message
      ensures Ready() && index == old(index) + RunLength(list, old(index)) && lineCount == index - old(index) + 1
      ensures g.message == old(g.message).(texts := old(g.message.texts) + Lines(list, old(index) + 1, index + 1))
    {
      var l, start := list, index;
      var i := start;
      lineCount := 1;
      while i + 1 < |l|
        invariant start <= i < |l| && lineCount == i - start + 1
        invariant forall j :: start < j <= i ==> l[j].code == ShowMessage2
        invariant g.message == old(g.message).(texts := old(g.message.texts) + Lines(l, start + 1, i + 1))
        decreases |l| - i
      {
        if l[i + 1].code == ShowMessage2 {
          lineCount := lineCount + 1;
          g.message := g.message.(texts := g.message.texts + [l[i + 1].str]);
          i := i + 1;
        } else {
          break;
        }
      }
      RunLengthUnique(l, start, i - start);
      index := i;
    }

    /** The second half of CommandShowMessage's loop: folds the command after
        the message into it, with the fit test as written (see
        FoldOverflows). */
    method FoldFollowing(lineCount: nat, g: World)
      requires Ready() && index < |list|
      modifies this`index, this`continuation, g`message
      ensures Ready()
      ensures (index, continuation, g.message) == Fold(list, old(index), lineCount, old(g.message), old(continuation))
    {
      if index + 1 < |list| {
        if list[index + 1].code == ShowChoice {
          var choices := GetChoices();
          if ChoicesFitAsWritten(lineCount, |choices|) {
            index := index + 1;
            g.message := g.message.(choiceStart := lineCount, choiceCancelType := list[index].parameters[0]);
            SetupChoices(choices, g);
          }
        } else if list[index + 1].code == InputNumber {
          if lineCount < 4 {
            index := index + 1;
            g.message := g.message.(numInputStart := lineCount, numInputDigitsMax := list[index].parameters[0],
                                    numInputVariableId := list[index].parameters[1]);
          }
        }
      }
    }

    /** CommandShowChoices: a choice window on its own, refused while the
        message has text. */
    method CommandShowChoices(com: EventCommand, g: World) returns (ok: bool)
      requires 0 <= index && |com.parameters| >= 1
      modifies this`continuation, g`message
      ensures ok == (old(g.message.texts) == [])
      ensures !ok ==> g.message == old(g.message) && continuation == old(continuation)
      ensures ok ==> continuation == ContinueChoices
                     && g.message == WithChoices(old(g.message).(messageWaiting := true, ownerId := eventId,
                                                                 choiceCancelType := com.parameters[0]),
                                                 Choices(list, index))
    {
      if g.message.texts != [] {
        return false;
      }
      g.message := g.message.(messageWaiting := true, ownerId := eventId);
      var choices := GetChoices();
      g.message := g.message.(choiceCancelType := com.parameters[0]);
      SetupChoices(choices, g);
      return true;
    }

    /** CommandInputNumber: a number input on its own, refused while a
        message is pending. */
    method CommandInputNumber(com: EventCommand, g: World) returns (ok: bool)
      requires |com.parameters| >= 2
      modifies g`message
      ensures ok == !old(g.message.messageWaiting)
      ensures g.message == if !ok then old(g.message)
                           else old(g.message).(messageWaiting := true, ownerId := eventId, numInputStart := 0,
                                                numInputVariableId := com.parameters[1],
                                                numInputDigitsMax := com.parameters[0])
    {
      if g.message.messageWaiting {
        return false;
      }
      g.message := g.message.(messageWaiting := true, ownerId := eventId);
      g.message := g.message.(numInputStart := 0, numInputVariableId := com.parameters[1],
                              numInputDigitsMax := com.parameters[0]);
      return true;
    }

    /** CommandChangeFaceGraphic: refused while another event's message is
        pending. */
    method CommandChangeFaceGraphic(com: EventCommand, g: World) returns (ok: bool)
      requires |com.parameters| >= 3
      modifies g`message
      ensures ok == !(old(g.message.messageWaiting) && old(g.message.ownerId) != eventId)
      ensures g.message == if !ok then old(g.message)
                           else old(g.message).(faceName := com.str, faceIndex := com.parameters[0],
                                                faceRight := com.parameters[1] != 0,
                                                faceFlipped := com.parameters[2] != 0)
    {
      if g.message.messageWaiting && g.message.ownerId != eventId {
        return false;
      }
      g.message := g.message.(faceName := com.str, faceIndex := com.parameters[0]);
      g.message := g.message.(faceRight := com.parameters[1] != 0, faceFlipped := com.parameters[2] != 0);
      return true;
    }

    // -------------------------------------------------------------------
    // Switches and variables

    /** CommandControlSwitches: sets (p3 0 on, 1 off) or toggles (p3 2) the
        switches p1..p2, or the one whose id is held in variable p1. */
    method CommandControlSwitches(com: EventCommand, g: World) returns (ok: bool)
      requires |com.parameters| >= 4
      modifies g`switches, g`refresh
      ensures var p := com.parameters;
              && ok == (p[0] == 0 || p[0] == 1 || p[0] == 2)
              && (p[0] == 0 || p[0] == 1 ==> g.switches == SwitchRange(old(g.switches), p[1], p[2], p[3]))
              && (p[0] == 2 ==> g.switches == SetSwitch(old(g.switches), Var(g.variables, p[1]), p[3]))
              && (!ok ==> g.switches == old(g.switches) && g.refresh == old(g.refresh))
              && (ok ==> g.refresh == RefreshAll)
    {
      var p := com.parameters;
      if p[0] == 0 || p[0] == 1 {
        var i := p[1];
        while i <= p[2]
          invariant SwitchRange(g.switches, i, p[2], p[3]) == SwitchRange(old(g.switches), p[1], p[2], p[3])
          decreases p[2] - i
        {
          if p[3] != 2 {
            g.switches := g.switches[i := p[3] == 0];
          } else {
            g.switches := g.switches[i := !Switch(g.switches, i)];
          }
          i := i + 1;
        }
      } else if p[0] == 2 {
        var id := Var(g.variables, p[1]);
        if p[3] != 2 {
          g.switches := g.switches[id := p[3] == 0];
        } else {
          g.switches := g.switches[id := !Switch(g.switches, id)];
        }
      } else {
        return false;
      }
      g.refresh := RefreshAll;
      return true;
    }

    /** The variables after ControlVariables' write with operand `value`:
        the range p1..p2, the variable whose id is held in variable p1, or
        none for another selector. */
    static function VariablesAfter(vars: map<int, int>, p: seq<int>, value: int): (r: map<int, int>)
      requires |p| >= 4
      ensures forall k :: Var(r, k) == Var(vars, k) || MinSize <= Var(r, k) <= MaxSize
      ensures !(0 <= p[0] <= 2) ==> r == vars
    {
      if p[0] == 0 || p[0] == 1 then WriteRange(vars, p[1], p[2], p[3], value)
      else if p[0] == 2 then WriteOne(vars, Var(vars, p[1]), p[3], value, false)
      else vars
    }

    /** CommandControlVariables: computes the operand (rand() being any
        natural number) and writes it into the targets, clamped. */
    method CommandControlVariables(com: EventCommand, g: World) returns (ok: bool)
      requires |com.parameters| >= 7
      modifies g`variables, g`refresh
      ensures ok && g.refresh == RefreshMap
      ensures var p := com.parameters;
              exists rnd: nat :: g.variables == VariablesAfter(old(g.variables), p,
                Operand(old(g.variables), g.items, g.gold, g.members, g.actors, g.queries, p[4], p[5], p[6], rnd))
    {
      var p := com.parameters;
      var rnd: nat :| true;
      var value := Operand(g.variables, g.items, g.gold, g.members, g.actors, g.queries, p[4], p[5], p[6], rnd);
      WriteVariables(p, value, g);
      g.refresh := RefreshMap;
      assert g.variables == VariablesAfter(old(g.variables), p,
        Operand(old(g.variables), g.items, g.gold, g.members, g.actors, g.queries, p[4], p[5], p[6], rnd));
      return true;
    }

    /** The writing half of CommandControlVariables. */
    method WriteVariables(p: seq<int>, value: int, g: World)
      requires |p| >= 4
      modifies g`variables
      ensures g.variables == VariablesAfter(old(g.variables), p, value)
    {
      if p[0] == 0 || p[0] == 1 {
        var i := p[1];
        while i <= p[2]
          invariant WriteRange(g.variables, i, p[2], p[3], value) == WriteRange(old(g.variables), p[1], p[2], p[3], value)
          decreases p[2] - i
        {
          var v := Operate(Var(g.variables, i), p[3], value, true);
          if v > MaxSize {
            v := MaxSize;
          }
          if v < MinSize {
            v := MinSize;
          }
          g.variables := g.variables[i := v];
          i := i + 1;
        }
      } else if p[0] == 2 {
        var target := Var(g.variables, p[1]);
        var v := Operate(Var(g.variables, target), p[3], value, false);
        if v > MaxSize {
          v := MaxSize;
        }
        if v < MinSize {
          v := MinSize;
        }
        g.variables := g.variables[target := v];
      }
    }

    // -------------------------------------------------------------------
    // Party commands

    /** CheckGameOver on the shared stores. */
    method CheckGameOver(g: World)
      requires g.Valid()
      modifies g`temp
      ensures g.temp == old(g.temp).(gameover := Commands.CheckGameOver(g.members, g.actors, old(g.temp.gameover)))
    {
      if !AnyActive(g.members, g.actors) {
        g.temp := g.temp.(gameover := |g.members| > 0);
      }
    }

    method CommandChangeGold(com: EventCommand, g: World) returns (ok: bool)
      requires |com.parameters| >= 3
      modifies g`gold
      ensures ok && g.gold == old(g.gold) + OperateValue(g.variables, com.parameters[0], com.parameters[1], com.parameters[2])
    {
      var value := OperateValue(g.variables, com.parameters[0], com.parameters[1], com.parameters[2]);
      g.gold := g.gold + value;
      return true;
    }

    /** CommandChangeItems: the add form never removes and the remove form
        never adds; the item is a constant id or the id held in a variable. */
    method CommandChangeItems(com: EventCommand, g: World) returns (ok: bool)
      requires |com.parameters| >= 5
      modifies g`items, g`refresh
      ensures var p := com.parameters;
              var value := OperateValue(g.variables, p[0], p[3], p[4]);
              var id := if p[1] == 0 then p[2] else Var(g.variables, p[2]);
              var refused := (p[0] == 1 && value > 0) || (p[0] != 1 && value < 0);
              ok && g.items == ItemsAfter(old(g.items), p[0] == 1, id, value)
              && g.refresh == if refused then old(g.refresh) else RefreshMap
    {
      var p := com.parameters;
      var value := OperateValue(g.variables, p[0], p[3], p[4]);
      if p[0] == 1 {
        if value > 0 {
          return true;
        }
      } else {
        if value < 0 {
          return true;
        }
      }
      var id := if p[1] == 0 then p[2] else Var(g.variables, p[2]);
      g.items := g.items[id := Var(g.items, id) + value];
      g.refresh := RefreshMap;
      return true;
    }

    /** CommandChangePartyMember: adds or removes a known actor; a removal
        is followed by CheckGameOver. */
    method CommandChangePartyMember(com: EventCommand, g: World) returns (ok: bool)
      requires |com.parameters| >= 3 && g.Valid()
      modifies g`members, g`temp, g`refresh
      ensures ok && g.Valid() && g.refresh == RefreshMap
      ensures var p := com.parameters;
              var id := if p[1] == 0 then p[2] else Var(g.variables, p[2]);
              && (id !in g.actors ==> g.members == old(g.members) && g.temp == old(g.temp))
              && (id in g.actors && p[0] == 0 ==> g.members == With(old(g.members), id) && g.temp == old(g.temp))
              && (id in g.actors && p[0] != 0 ==>
                    g.members == Without(old(g.members), id)
                    && g.temp == old(g.temp).(gameover := Commands.CheckGameOver(g.members, g.actors, old(g.temp.gameover))))
    {
      var p := com.parameters;
      var id := if p[1] == 0 then p[2] else Var(g.variables, p[2]);
      if id in g.actors {
        if p[0] == 0 {
          g.members := With(g.members, id);
        } else {
          var before := g.members;
          g.members := Without(before, id);
          forall k | 0 <= k < |g.members| ensures g.members[k] in g.actors {
            assert g.members[k] in before;
          }
          CheckGameOver(g);
        }
      }
      g.refresh := RefreshMap;
      return true;
    }

    /** Walks `ids`, applying `e` to each actor in turn. */
    method ApplyEach(ids: seq<int>, e: Effect, g: World)
      requires g.Valid() && AllKnown(ids, g.actors)
      modifies g`actors
      ensures g.Valid() && g.actors == ApplyAll(old(g.actors), ids, e)
    {
      var i := 0;
      while i < |ids|
        invariant 0 <= i <= |ids| && g.Valid() && g.actors.Keys == old(g.actors).Keys
        invariant AllKnown(ids[i..], g.actors)
        invariant ApplyAll(g.actors, ids[i..], e) == ApplyAll(old(g.actors), ids, e)
      {
        var first := ids[i];
        assert first in g.actors;
        assert ActorOk(g.actors[first]);
        var a := Apply(e, g.actors[ids[i]]);
        Step(g.actors, ids[i..], a);
        assert ids[i..][1..] == ids[i + 1..];
        g.actors := g.actors[ids[i] := a];
        i := i + 1;
      }
    }

    /** ChangeHP's loop: walks `ids`, changing each actor's HP by the
        running amount, which grows by what lifts an actor to 1 HP whenever
        lethal is off and the change would take it to 0 or below. */
    method CarryEach(ids: seq<int>, amount: int, lethal: bool, g: World)
      requires g.Valid() && AllKnown(ids, g.actors)
      modifies g`actors
      ensures g.Valid() && g.actors == ApplyHpCarry(old(g.actors), ids, amount, lethal)
    {
      var i, n := 0, amount;
      while i < |ids|
        invariant 0 <= i <= |ids| && g.Valid() && g.actors.Keys == old(g.actors).Keys
        invariant AllKnown(ids[i..], g.actors)
        invariant ApplyHpCarry(g.actors, ids[i..], n, lethal) == ApplyHpCarry(old(g.actors), ids, amount, lethal)
      {
        var first := ids[i];
        assert first in g.actors;
        assert ActorOk(g.actors[first]);
        var a := g.actors[ids[i]];
        var hp := a.hp + n;
        if !lethal && hp <= 0 {
          n := n + hp * -1 + 1;
        }
        Step(g.actors, ids[i..], ChangeHp(a, n));
        assert ids[i..][1..] == ids[i + 1..];
        g.actors := g.actors[ids[i] := ChangeHp(a, n)];
        i := i + 1;
      }
    }

    /** The actors a command targets, all of them known. */
    method Targets(g: World, mode: int, id: int) returns (ids: seq<int>)
      requires g.Valid()
      ensures ids == GetActors(g.variables, g.members, g.actors, mode, id) && AllKnown(ids, g.actors)
    {
      ids := GetActors(g.variables, g.members, g.actors, mode, id);
      forall k | 0 <= k < |ids| ensures ids[k] in g.actors {
        GetActorsKnown(g.variables, g.members, g.actors, mode, id, k);
      }
    }

    /** CommandChangeHP: adds or removes HP of each targeted actor; with
        lethal off an actor the change would take to 0 or below ends at 1,
        and the adjustment is carried to the actors after it (see
        HpCarryDiverges); lethal changes check for game over. */
    method CommandChangeHP(com: EventCommand, g: World) returns (ok: bool)
      requires |com.parameters| >= 6 && g.Valid()
      modifies g`actors, g`temp
      ensures ok && g.Valid()
      ensures var p := com.parameters;
              var v := ValueOrVariable(g.variables, p[3], p[4]);
              var ids := GetActors(g.variables, g.members, old(g.actors), p[0], p[1]);
              g.actors == ApplyHpCarry(old(g.actors), ids, if p[2] != 0 then -v else v, p[5] != 0)
      ensures g.temp == if com.parameters[5] != 0
                        then old(g.temp).(gameover := Commands.CheckGameOver(g.members, g.actors, old(g.temp.gameover)))
                        else old(g.temp)
    {
      var p := com.parameters;
      var amount := ValueOrVariable(g.variables, p[3], p[4]);
      if p[2] != 0 {
        amount := -amount;
      }
      var ids := Targets(g, p[0], p[1]);
      CarryEach(ids, amount, p[5] != 0, g);
      if p[5] != 0 {
        CheckGameOver(g);
      }
      return true;
    }

    /** CommandChangeSP: each targeted actor's SP becomes max(sp + amount, 0). */
    method CommandChangeSP(com: EventCommand, g: World) returns (ok: bool)
      requires |com.parameters| >= 5 && g.Valid()
      modifies g`actors
      ensures ok && g.Valid()
      ensures var p := com.parameters;
              var v := ValueOrVariable(g.variables, p[3], p[4]);
              var ids := GetActors(g.variables, g.members, old(g.actors), p[0], p[1]);
              g.actors == ApplyAll(old(g.actors), ids, SpEffect(if p[2] != 0 then -v else v))
    {
      var p := com.parameters;
      var amount := ValueOrVariable(g.variables, p[3], p[4]);
      if p[2] != 0 {
        amount := -amount;
      }
      var ids := Targets(g, p[0], p[1]);
      ApplyEach(ids, SpEffect(amount), g);
      return true;
    }

    /** CommandFullHeal: each targeted actor is restored and cleansed. */
    method CommandFullHeal(com: EventCommand, g: World) returns (ok: bool)
      requires |com.parameters| >= 2 && g.Valid()
      modifies g`actors
      ensures ok && g.Valid()
      ensures g.actors == ApplyAll(old(g.actors), GetActors(g.variables, g.members, old(g.actors), com.parameters[0], com.parameters[1]), HealEffect)
    {
      var ids := Targets(g, com.parameters[0], com.parameters[1]);
      ApplyEach(ids, HealEffect, g);
      return true;
    }

    /** CommandChangeCondition: adds or removes a state on each targeted
        actor, checking for game over after each addition. */
    method CommandChangeCondition(com: EventCommand, g: World) returns (ok: bool)
      requires |com.parameters| >= 4 && g.Valid()
      modifies g`actors, g`temp
      ensures ok && g.Valid()
      ensures var p := com.parameters;
              var ids := GetActors(g.variables, g.members, old(g.actors), p[0], p[1]);
              (g.actors, g.temp.gameover) == ConditionAll(old(g.actors), g.members, old(g.temp.gameover), ids, p[2] != 0, p[3])
      ensures g.temp == old(g.temp).(gameover := g.temp.gameover)
    {
      var ids := Targets(g, com.parameters[0], com.parameters[1]);
      ConditionEach(ids, com.parameters[2] != 0, com.parameters[3], g);
      return true;
    }

    /** Walks `ids`, adding or removing the state on each actor in turn. */
    method ConditionEach(ids: seq<int>, remove: bool, stateId: int, g: World)
      requires g.Valid() && AllKnown(ids, g.actors)
      modifies g`actors, g`temp
      ensures g.Valid()
      ensures (g.actors, g.temp.gameover) == ConditionAll(old(g.actors), g.members, old(g.temp.gameover), ids, remove, stateId)
      ensures g.temp == old(g.temp).(gameover := g.temp.gameover)
    {
      assert AllKnown(g.members, g.actors) && ActorsOk(g.actors);
      var actors, over := ConditionWalk(g.actors, g.members, g.temp.gameover, ids, remove, stateId);
      g.actors := actors;
      g.temp := g.temp.(gameover := over);
    }

    /** ChangeCondition's loop on the party's actors: every addition is
        followed by CheckGameOver. */
    static method ConditionWalk(actors0: map<int, Actor>, members: seq<int>, over0: bool, ids: seq<int>,
                                remove: bool, stateId: int) returns (actors: map<int, Actor>, over: bool)
      requires AllKnown(ids, actors0) && AllKnown(members, actors0) && ActorsOk(actors0)
      ensures (actors, over) == ConditionAll(actors0, members, over0, ids, remove, stateId)
    {
      actors, over := actors0, over0;
      var i := 0;
      while i < |ids|
        invariant 0 <= i <= |ids| && actors.Keys == actors0.Keys
        invariant AllKnown(ids[i..], actors) && AllKnown(members, actors) && ActorsOk(actors)
        invariant ConditionAll(actors, members, over, ids[i..], remove, stateId)
                  == ConditionAll(actors0, members, over0, ids, remove, stateId)
      {
        var first := ids[i];
        assert first in actors;
        assert ActorOk(actors[first]);
        var a := Condition(actors[ids[i]], remove, stateId);
        Step(actors, ids[i..], a);
        assert ids[i..][1..] == ids[i + 1..];
        actors := actors[ids[i] := a];
        if !remove {
          over := Commands.CheckGameOver(members, actors, over);
        }
        i := i + 1;
      }
    }

    // -------------------------------------------------------------------
    // Waits and screen effects

    /** CommandWait: a plain wait (no second parameter, or 0) sets up frames
        and continues; the wait-for-key form continues once a key is hit. */
    method CommandWait(com: EventCommand, g: World) returns (ok: bool)
      requires |com.parameters| >= 1
      modifies this`waitCount
      ensures var p := com.parameters;
              if |p| <= 1 || p[1] == 0 then ok && waitCount == WaitFrames(p[0])
              else ok == g.anyTriggered && waitCount == old(waitCount)
    {
      if |com.parameters| <= 1 || com.parameters[1] == 0 {
        SetupWait(com.parameters[0]);
        return true;
      } else {
        return g.anyTriggered;
      }
    }

    /** CommandTintScreen: waits for the tint when asked to. */
    method CommandTintScreen(com: EventCommand) returns (ok: bool)
      requires |com.parameters| >= 6
      modifies this`waitCount
      ensures ok && waitCount == if com.parameters[5] != 0 then WaitFrames(com.parameters[4]) else old(waitCount)
    {
      if com.parameters[5] != 0 {
        SetupWait(com.parameters[4]);
      }
      return true;
    }

    /** CommandFlashScreen: a single flash (no seventh parameter, or 0)
        waits when asked to; starting or ending a flash never waits. */
    method CommandFlashScreen(com: EventCommand) returns (ok: bool)
      requires |com.parameters| >= 6
      modifies this`waitCount
      ensures var p := com.parameters;
              ok && waitCount == if p[5] != 0 && (|p| <= 6 || p[6] == 0) then WaitFrames(p[4]) else old(waitCount)
    {
      var p := com.parameters;
      var wait := p[5] != 0;
      if |p| <= 6 {
        if wait {
          SetupWait(p[4]);
        }
      } else if p[6] == 0 {
        if wait {
          SetupWait(p[4]);
        }
      }
      return true;
    }

    /** CommandShakeScreen: a single shake (always in RPG Maker 2000, or when
        p4 is 0) waits when asked to. */
    method CommandShakeScreen(com: EventCommand, g: World) returns (ok: bool)
      requires |com.parameters| >= 4
      modifies this`waitCount
      ensures var p := com.parameters;
              ok && waitCount == if p[3] != 0 && (g.rpg2k || (|p| > 4 && p[4] == 0)) then WaitFrames(p[2]) else old(waitCount)
    {
      var p := com.parameters;
      var wait := p[3] != 0;
      // Outside RPG Maker 2000 the mode is parameters[4]; a command that
      // lacks it is taken to set no wait.
      if g.rpg2k {
        if wait {
          SetupWait(p[2]);
        }
      } else if |p| > 4 && p[4] == 0 {
        if wait {
          SetupWait(p[2]);
        }
      }
      return true;
    }

    // -------------------------------------------------------------------
    // Flow commands

    /** CommandEndEventProcessing: the cursor goes to the end of the list. */
    method CommandEndEventProcessing() returns (ok: bool)
      requires Ready()
      modifies this`index
      ensures Ready() && ok && index == |list|
    {
      index := |list|;
      return true;
    }

    /** CommandGameOver: sets game over and suspends with the default
        continuation. */
    method CommandGameOver(g: World) returns (ok: bool)
      modifies this`continuation, g`temp
      ensures !ok && g.temp == old(g.temp).(gameover := true) && continuation == ContinueDefault
    {
      g.temp := g.temp.(gameover := true);
      continuation := ContinueDefault;
      return false;
    }

    // -------------------------------------------------------------------
    // Dispatch

    /** The message and choice commands. */
    static predicate IsMessageCode(code: int)
    {
      code == ShowMessage || code == ChangeFaceGraphic || code == ShowChoice
      || code == ShowChoiceOption || code == InputNumber
    }

    /** The commands on the shared stores. */
    static predicate IsStoreCode(code: int)
    {
      code == ControlSwitches || code == ControlVars || code == ChangeGold || code == ChangeItems
      || code == ChangePartyMembers || code == ChangeLevel || code == ChangeSkills || code == ChangeEquipment
      || code == ChangeHP || code == ChangeSP || code == ChangeCondition || code == FullHeal
    }

    /** The commands that may set up a wait. */
    static predicate IsWaitCode(code: int)
    {
      code == TintScreen || code == FlashScreen || code == ShakeScreen || code == Wait
    }

    /** ExecuteCommand's message cases: only ShowMessage and the option skip
        move the cursor, only ShowMessage and ShowChoice the continuation. */
    method ExecuteMessage(g: World) returns (ok: bool)
      requires Ready() && index < |list| && IsMessageCode(list[index].code)
      modifies this`index, this`continuation, g`message
      ensures Ready() && old(index) <= index <= |list|
      ensures var code := list[old(index)].code;
              && (index != old(index) ==> code == ShowMessage || code == ShowChoiceOption)
              && (continuation != old(continuation) ==> code == ShowMessage || code == ShowChoice)
      ensures MessageDone(list[old(index)], g, ok)
    {
      var com := list[index];
      assert CommandOk(com);
      if com.code == ShowMessage {
        ok := CommandShowMessage(g);
      } else if com.code == ChangeFaceGraphic {
        ok := CommandChangeFaceGraphic(com, g);
      } else if com.code == ShowChoice {
        ok := CommandShowChoices(com, g);
      } else if com.code == ShowChoiceOption {
        ok := SkipTo(ShowChoiceEnd, -1, -1, -1, false);
      } else {
        ok := CommandInputNumber(com, g);
      }
    }

    /** ExecuteCommand's cases on the shared stores. */
    method ExecuteStore(com: EventCommand, g: World) returns (ok: bool)
      requires CommandOk(com) && IsStoreCode(com.code) && g.Valid()
      modifies g
      ensures g.Valid() && StoreDone(com, g, ok)
    {
      var code := com.code;
      if code == ChangeHP || code == ChangeSP || code == ChangeCondition || code == FullHeal {
        ok := ExecuteActors(com, g);
      } else if code == ControlSwitches || code == ControlVars {
        ok := ExecuteVariables(com, g);
      } else {
        ok := ExecuteParty(com, g);
      }
    }

    /** ExecuteStore's cases on the switches and variables. */
    method ExecuteVariables(com: EventCommand, g: World) returns (ok: bool)
      requires CommandOk(com) && g.Valid() && (com.code == ControlSwitches || com.code == ControlVars)
      modifies g
      ensures g.Valid() && StoreDone(com, g, ok)
    {
      if com.code == ControlSwitches {
        ok := CommandControlSwitches(com, g);
      } else {
        ok := CommandControlVariables(com, g);
      }
    }

    /** ExecuteStore's cases on the gold, items, party and the actor commands
        that belong to Game_Actor. */
    method ExecuteParty(com: EventCommand, g: World) returns (ok: bool)
      requires CommandOk(com) && g.Valid()
      requires com.code == ChangeGold || com.code == ChangeItems || com.code == ChangePartyMembers
               || com.code == ChangeLevel || com.code == ChangeSkills || com.code == ChangeEquipment
      modifies g
      ensures g.Valid() && StoreDone(com, g, ok)
    {
      var code := com.code;
      if code == ChangeGold {
        ok := CommandChangeGold(com, g);
      } else if code == ChangeItems {
        ok := CommandChangeItems(com, g);
      } else if code == ChangePartyMembers {
        ok := CommandChangePartyMember(com, g);
      } else if code == ChangeLevel || code == ChangeSkills {
        // Level and skill changes belong to Game_Actor; both continue.
        ok := true;
      } else {
        // ChangeEquipment belongs to Game_Actor; an unknown form refuses.
        ok := com.parameters[2] == 0 || com.parameters[2] == 1;
      }
    }

    /** ExecuteStore's cases on the targeted actors. */
    method ExecuteActors(com: EventCommand, g: World) returns (ok: bool)
      requires CommandOk(com) && g.Valid()
      requires com.code == ChangeHP || com.code == ChangeSP || com.code == ChangeCondition || com.code == FullHeal
      modifies g
      ensures g.Valid() && StoreDone(com, g, ok)
    {
      if com.code == ChangeHP || com.code == ChangeSP {
        ok := ExecutePoints(com, g);
      } else {
        ok := ExecuteHealth(com, g);
      }
    }

    /** The HP and SP changes. */
    method ExecutePoints(com: EventCommand, g: World) returns (ok: bool)
      requires CommandOk(com) && g.Valid() && (com.code == ChangeHP || com.code == ChangeSP)
      modifies g
      ensures g.Valid() && StoreDone(com, g, ok)
    {
      if com.code == ChangeHP {
        ok := CommandChangeHP(com, g);
      } else {
        ok := CommandChangeSP(com, g);
      }
    }

    /** The condition changes and the full heal. */
    method ExecuteHealth(com: EventCommand, g: World) returns (ok: bool)
      requires CommandOk(com) && g.Valid() && (com.code == ChangeCondition || com.code == FullHeal)
      modifies g
      ensures g.Valid() && StoreDone(com, g, ok)
    {
      if com.code == ChangeCondition {
        ok := CommandChangeCondition(com, g);
      } else {
        ok := CommandFullHeal(com, g);
      }
    }

    /** ExecuteCommand's waiting cases. */
    method ExecuteWait(com: EventCommand, g: World) returns (ok: bool)
      requires CommandOk(com) && IsWaitCode(com.code)
      modifies this`waitCount
      ensures WaitDone(com, g, ok)
    {
      if com.code == TintScreen {
        ok := CommandTintScreen(com);
      } else if com.code == FlashScreen {
        ok := CommandFlashScreen(com);
      } else if com.code == ShakeScreen {
        ok := CommandShakeScreen(com, g);
      } else {
        ok := CommandWait(com, g);
      }
    }

    /** ExecuteCommand: dispatches the command under the cursor. Only the
        message, option and end-processing commands move the cursor, only
        the message, choice and game-over commands touch the continuation,
        and only the wait and screen commands the wait count. */
    method ExecuteCommand(g: World) returns (ok: bool)
      requires Ready() && g.Valid() && index < |list|
      modifies this`index, this`waitCount, this`continuation, g
      ensures Ready() && g.Valid()
      ensures old(index) <= index <= |list|
      ensures var code := list[old(index)].code;
              && (index != old(index) ==> code == ShowMessage || code == ShowChoiceOption || code == EndEventProcessing)
              && (continuation != old(continuation) ==> code == ShowMessage || code == ShowChoice || code == GameOver)
              && (waitCount != old(waitCount) ==> IsWaitCode(code))
              && (code == EndEventProcessing ==> ok && index == |list| && unchanged(g))
              && (code == GameOver ==> !ok && continuation == ContinueDefault
                                       && g.temp == old(g.temp).(gameover := true) && WritesOnly(g, {TempStore}))
              && (IsMessageCode(code) ==> MessageDone(list[old(index)], g, ok) && WritesOnly(g, {MessageStore}))
              && (IsStoreCode(code) ==> StoreDone(list[old(index)], g, ok))
              && (IsWaitCode(code) ==> unchanged(g) && WaitDone(list[old(index)], g, ok))
              && (!IsMessageCode(code) && !IsStoreCode(code) && !IsWaitCode(code)
                  && code != EndEventProcessing && code != GameOver
                  ==> ok && unchanged(g) && index == old(index)
                      && continuation == old(continuation) && waitCount == old(waitCount))
    {
      var code := list[index].code;
      if IsMessageCode(code) || IsStoreCode(code) {
        ok := ExecuteData(g);
      } else {
        ok := ExecuteControl(g);
      }
    }

    /** ExecuteCommand's cases for the message and store commands. */
    method ExecuteData(g: World) returns (ok: bool)
      requires Ready() && g.Valid() && index < |list|
      requires IsMessageCode(list[index].code) || IsStoreCode(list[index].code)
      modifies this`index, this`continuation, g
      ensures Ready() && g.Valid() && old(index) <= index <= |list|
      ensures var code := list[old(index)].code;
              && (index != old(index) ==> code == ShowMessage || code == ShowChoiceOption)
              && (continuation != old(continuation) ==> code == ShowMessage || code == ShowChoice)
              && (IsMessageCode(code) ==> MessageDone(list[old(index)], g, ok) && WritesOnly(g, {MessageStore}))
              && (IsStoreCode(code) ==> StoreDone(list[old(index)], g, ok))
    {
      var com := list[index];
      assert CommandOk(com);
      if IsMessageCode(com.code) {
        ok := ExecuteMessage(g);
      } else {
        ok := ExecuteStore(com, g);
      }
    }

    /** ExecuteCommand's cases for the waiting, audio, end and game-over
        commands and every other code. */
    method ExecuteControl(g: World) returns (ok: bool)
      requires Ready() && g.Valid() && index < |list|
      requires !IsMessageCode(list[index].code) && !IsStoreCode(list[index].code)
      modifies this`index, this`waitCount, this`continuation, g
      ensures Ready() && g.Valid() && old(index) <= index <= |list|
      ensures var code := list[old(index)].code;
              && (index != old(index) ==> code == EndEventProcessing)
              && (continuation != old(continuation) ==> code == GameOver)
              && (waitCount != old(waitCount) ==> IsWaitCode(code))
              && (code == EndEventProcessing ==> ok && index == |list| && unchanged(g))
              && (code == GameOver ==> !ok && continuation == ContinueDefault
                                       && g.temp == old(g.temp).(gameover := true) && WritesOnly(g, {TempStore}))
              && (IsWaitCode(code) ==> unchanged(g) && WaitDone(list[old(index)], g, ok))
              && (!IsWaitCode(code) && code != EndEventProcessing && code != GameOver
                  ==> ok && unchanged(g) && index == old(index)
                      && continuation == old(continuation) && waitCount == old(waitCount))
    {
      var com := list[index];
      assert CommandOk(com);
      var code := com.code;
      if IsWaitCode(code) {
        ok := ExecuteWait(com, g);
      } else if code == PlayBGM || code == FadeOutBGM || code == PlaySound {
        // Audio belongs to Game_System and Audio; all continue.
        ok := true;
      } else if code == EndEventProcessing {
        ok := CommandEndEventProcessing();
      } else if code == GameOver {
        ok := CommandGameOver(g);
      } else {
        // ShowChoiceEnd, the comments and every other code continue.
        ok := true;
      }
    }

    /** ExecuteCommand's table for the message commands: what each one's
        handler does to the cursor, the continuation and the message. */
    twostate predicate MessageDone(com: EventCommand, g: World, ok: bool)
      reads this, g
    {
      && 0 <= old(index) < |list| && WellFormed(list) && com == list[old(index)]
      && (com.code == ShowMessage ==>
            && ok == !(old(g.message.messageWaiting) || (!mainFlag && old(g.message.visible)))
            && (!ok ==> index == old(index) && g.message == old(g.message) && continuation == old(continuation))
            && (ok ==> var last := old(index) + RunLength(list, old(index));
                       (index, continuation, g.message)
                       == Fold(list, last, last - old(index) + 1, Opened(old(g.message), list, old(index), eventId),
                               old(continuation))))
      && (com.code == ChangeFaceGraphic ==>
            && index == old(index) && continuation == old(continuation)
            && ok == !(old(g.message.messageWaiting) && old(g.message.ownerId) != eventId)
            && g.message == if !ok then old(g.message)
                            else old(g.message).(faceName := com.str, faceIndex := com.parameters[0],
                                                 faceRight := com.parameters[1] != 0,
                                                 faceFlipped := com.parameters[2] != 0))
      && (com.code == ShowChoice ==>
            && index == old(index) && ok == (old(g.message.texts) == [])
            && (!ok ==> g.message == old(g.message) && continuation == old(continuation))
            && (ok ==> continuation == ContinueChoices
                       && g.message == WithChoices(old(g.message).(messageWaiting := true, ownerId := eventId,
                                                                   choiceCancelType := com.parameters[0]),
                                                   Choices(list, old(index)))))
      && (com.code == ShowChoiceOption ==>
            && (ok, index) == SkipTarget(list, old(index), ShowChoiceEnd, -1, -1, -1, false)
            && continuation == old(continuation) && g.message == old(g.message))
      && (com.code == InputNumber ==>
            && index == old(index) && continuation == old(continuation)
            && ok == !old(g.message.messageWaiting)
            && g.message == if !ok then old(g.message)
                            else old(g.message).(messageWaiting := true, ownerId := eventId, numInputStart := 0,
                                                 numInputVariableId := com.parameters[1],
                                                 numInputDigitsMax := com.parameters[0]))
    }

    /** The stores the store commands' handlers leave alone: each store is
        written only by the commands named against it. */
    twostate predicate StoreFrame(code: int, g: World)
      reads g
    {
      var actorCode := code == ChangeHP || code == ChangeSP || code == ChangeCondition || code == FullHeal;
      && g.message == old(g.message) && g.mapId == old(g.mapId) && g.queries == old(g.queries)
      && g.boarding == old(g.boarding) && g.teleporting == old(g.teleporting)
      && g.anyTriggered == old(g.anyTriggered) && g.rpg2k == old(g.rpg2k)
      && (code != ControlSwitches ==> g.switches == old(g.switches))
      && (code != ControlVars ==> g.variables == old(g.variables))
      && (code != ChangeGold ==> g.gold == old(g.gold))
      && (code != ChangeItems ==> g.items == old(g.items))
      && (code != ChangePartyMembers ==> g.members == old(g.members))
      && (!actorCode ==> g.actors == old(g.actors))
      && (code != ChangePartyMembers && code != ChangeHP && code != ChangeCondition ==> g.temp == old(g.temp))
      && (code != ControlSwitches && code != ControlVars && code != ChangeItems && code != ChangePartyMembers
          ==> g.refresh == old(g.refresh))
    }

    /** ExecuteCommand's table for the commands on the shared stores: what
        each one's handler leaves in them, and that it writes no other store. */
    twostate predicate StoreDone(com: EventCommand, g: World, ok: bool)
      requires CommandOk(com) && old(g.Valid()) && g.Valid()
      reads g
    {
      && StoreFrame(com.code, g)
      && VariablesDone(com, g, ok)
      && PartyDone(com, g, ok)
      && ActorsDone(com, g, ok)
      && (com.code == ChangeLevel || com.code == ChangeSkills ==> ok && unchanged(g))
      && (com.code == ChangeEquipment ==> ok == (com.parameters[2] == 0 || com.parameters[2] == 1) && unchanged(g))
    }

    /** The switch and variable commands. */
    twostate predicate VariablesDone(com: EventCommand, g: World, ok: bool)
      requires CommandOk(com)
      reads g
    {
      var p := com.parameters;
      && (com.code == ControlSwitches ==>
            && ok == (p[0] == 0 || p[0] == 1 || p[0] == 2)
            && (p[0] == 0 || p[0] == 1 ==> g.switches == SwitchRange(old(g.switches), p[1], p[2], p[3]))
            && (p[0] == 2 ==> g.switches == SetSwitch(old(g.switches), Var(g.variables, p[1]), p[3]))
            && (!ok ==> g.switches == old(g.switches) && g.refresh == old(g.refresh))
            && (ok ==> g.refresh == RefreshAll))
      && (com.code == ControlVars ==>
            && ok && g.refresh == RefreshMap
            && exists rnd: nat :: g.variables == VariablesAfter(old(g.variables), p,
                 Operand(old(g.variables), g.items, g.gold, g.members, g.actors, g.queries, p[4], p[5], p[6], rnd)))
    }

    /** The gold, item and party commands. */
    twostate predicate PartyDone(com: EventCommand, g: World, ok: bool)
      requires CommandOk(com) && g.Valid()
      reads g
    {
      var p := com.parameters;
      && (com.code == ChangeGold ==> ok && g.gold == old(g.gold) + OperateValue(g.variables, p[0], p[1], p[2]))
      && (com.code == ChangeItems ==>
            var value := OperateValue(g.variables, p[0], p[3], p[4]);
            var id := if p[1] == 0 then p[2] else Var(g.variables, p[2]);
            var refused := (p[0] == 1 && value > 0) || (p[0] != 1 && value < 0);
            ok && g.items == ItemsAfter(old(g.items), p[0] == 1, id, value)
            && g.refresh == if refused then old(g.refresh) else RefreshMap)
      && (com.code == ChangePartyMembers ==>
            var id := if p[1] == 0 then p[2] else Var(g.variables, p[2]);
            && ok && g.refresh == RefreshMap
            && (id !in g.actors ==> g.members == old(g.members) && g.temp == old(g.temp))
            && (id in g.actors && p[0] == 0 ==> g.members == With(old(g.members), id) && g.temp == old(g.temp))
            && (id in g.actors && p[0] != 0 ==>
                  g.members == Without(old(g.members), id)
                  && g.temp == old(g.temp).(gameover := Commands.CheckGameOver(g.members, g.actors, old(g.temp.gameover)))))
    }

    /** The commands on the targeted actors; the targets are read from the
        stores as they were. */
    twostate predicate ActorsDone(com: EventCommand, g: World, ok: bool)
      requires CommandOk(com) && old(g.Valid()) && g.Valid()
      reads g
    {
      var p := com.parameters;
      com.code == ChangeHP || com.code == ChangeSP || com.code == ChangeCondition || com.code == FullHeal ==>
        var ids := GetActors(old(g.variables), old(g.members), old(g.actors), p[0], p[1]);
        GetActorsAllKnown(old(g.variables), old(g.members), old(g.actors), p[0], p[1]);
        && (com.code == ChangeHP ==>
              var v := ValueOrVariable(old(g.variables), p[3], p[4]);
              && ok && g.actors == ApplyHpCarry(old(g.actors), ids, if p[2] != 0 then -v else v, p[5] != 0)
              && g.temp == if p[5] != 0
                           then old(g.temp).(gameover := Commands.CheckGameOver(g.members, g.actors, old(g.temp.gameover)))
                           else old(g.temp))
        && (com.code == ChangeSP ==>
              var v := ValueOrVariable(old(g.variables), p[3], p[4]);
              ok && g.actors == ApplyAll(old(g.actors), ids, SpEffect(if p[2] != 0 then -v else v)))
        && (com.code == ChangeCondition ==>
              && ok && g.temp == old(g.temp).(gameover := g.temp.gameover)
              && (g.actors, g.temp.gameover) == ConditionAll(old(g.actors), old(g.members), old(g.temp.gameover), ids, p[2] != 0, p[3]))
        && (com.code == FullHeal ==> ok && g.actors == ApplyAll(old(g.actors), ids, HealEffect))
    }

    /** ExecuteCommand's table for the waiting commands: the wait count
        each one's handler leaves. */
    twostate predicate WaitDone(com: EventCommand, g: World, ok: bool)
      requires CommandOk(com)
      reads this, g
    {
      var p := com.parameters;
      && (com.code == TintScreen ==> ok && waitCount == if p[5] != 0 then WaitFrames(p[4]) else old(waitCount))
      && (com.code == FlashScreen ==>
            ok && waitCount == if p[5] != 0 && (|p| <= 6 || p[6] == 0) then WaitFrames(p[4]) else old(waitCount))
      && (com.code == ShakeScreen ==>
            ok && waitCount == if p[3] != 0 && (g.rpg2k || (|p| > 4 && p[4] == 0)) then WaitFrames(p[2]) else old(waitCount))
      && (com.code == Wait ==>
            if |p| <= 1 || p[1] == 0 then ok && waitCount == WaitFrames(p[0])
            else ok == g.anyTriggered && waitCount == old(waitCount))
    }

    // -------------------------------------------------------------------
    // Update

    /** Update: runs at most LoopLimit iterations, each dispatching at most
        one command. A child interpreter is updated first and ends the call
        while it survives; a pending wait is counted down by one frame and
        ends the call; the cursor never moves back. */
    method Update(g: World) returns (ghost moves: seq<Move>)
      requires Valid() && g.Valid()
      modifies Repr, g
      decreases Repr, 3
      ensures Valid() && g.Valid() && Repr == old(Repr)
      ensures list == old(list) && !updating && 0 <= loopCount <= LoopLimit && old(index) <= index
      ensures executed <= old(executed) + LoopLimit && runned == (executed > old(executed))
      ensures child == null || child == old(child)
      ensures child != null ==> child.IsRunning() && !clearChild && index == old(index)
                                && waitCount == old(waitCount) && continuation == old(continuation)
      ensures old(child) != null && (old(clearChild) || old(child.list) == []) ==> child == null && !clearChild
      ensures old(child) == null && old(waitCount) > 0
              && !MessageHolds(mainFlag, old(g.boarding), old(g.message), if old(g.mapId) != old(mapId) then 0 else old(eventId))
              ==> waitCount == old(waitCount) - 1 && index == old(index) && executed == old(executed)
      ensures old(child) == null
              && (MessageHolds(mainFlag, old(g.boarding), old(g.message), if old(g.mapId) != old(mapId) then 0 else old(eventId))
                  || (old(waitCount) <= 0 && TempBlocks(old(g.temp))))
              ==> loopCount == 0 && unchanged(g) && index == old(index) && waitCount == old(waitCount)
                  && continuation == old(continuation) && executed == old(executed)
      ensures Trace(moves) && |moves| == executed - old(executed)
      ensures moves != [] ==> old(index) <= moves[0].before && moves[|moves| - 1].after <= index
      ensures moves != [] && !moves[|moves| - 1].done ==> index == moves[|moves| - 1].after
    {
      updating, runned, loopCount := true, false, 0;
      // The first iteration is written out: it is the one that sees the
      // state the call started in.
      ghost var before := index;
      var stop;
      ghost var ran, done, mid;
      stop, ran, done, mid := Turn(g);
      moves := if ran then [Move(before, mid, done, index)] else [];
      if !stop {
        loopCount := 1;
        moves := Iterate(g, moves);
      }
      updating := false;
    }

    /** The rest of Update's loop, from iteration `loopCount` on: each turn
        that ran a command extends the trace. */
    method Iterate(g: World, ghost moves0: seq<Move>) returns (ghost moves: seq<Move>)
      requires Valid() && g.Valid() && child == null && 0 <= loopCount <= LoopLimit
      requires Trace(moves0) && (moves0 != [] ==> moves0[|moves0| - 1].done && moves0[|moves0| - 1].after <= index)
      modifies Repr, g
      decreases Repr, 2
      ensures Valid() && g.Valid() && Repr == old(Repr) && child == null && clearChild == old(clearChild)
      ensures list == old(list) && updating == old(updating) && mainFlag == old(mainFlag)
      ensures old(loopCount) <= loopCount <= LoopLimit && old(index) <= index
      ensures old(executed) <= executed <= old(executed) + LoopLimit - old(loopCount)
      ensures runned == (old(runned) || executed > old(executed))
      ensures Trace(moves) && |moves| == |moves0| + executed - old(executed) && moves0 <= moves
      ensures |moves| > |moves0| ==> old(index) <= moves[|moves0|].before
      ensures moves != [] ==> moves[|moves| - 1].after <= index
      ensures moves != [] && !moves[|moves| - 1].done ==> index == moves[|moves| - 1].after
    {
      moves := moves0;
      while loopCount < LoopLimit
        invariant Valid() && g.Valid() && Repr == old(Repr) && child == null && clearChild == old(clearChild)
        invariant list == old(list) && updating == old(updating) && mainFlag == old(mainFlag)
        invariant old(loopCount) <= loopCount <= LoopLimit && old(index) <= index
        invariant old(executed) <= executed <= old(executed) + loopCount - old(loopCount)
        invariant runned == (old(runned) || executed > old(executed))
        invariant Trace(moves) && |moves| == |moves0| + executed - old(executed) && moves0 <= moves
        invariant |moves| > |moves0| ==> old(index) <= moves[|moves0|].before
        invariant moves != [] ==> moves[|moves| - 1].done && moves[|moves| - 1].after <= index
        decreases LoopLimit - loopCount
      {
        ghost var before := index;
        var stop;
        ghost var ran, done, mid;
        stop, ran, done, mid := Turn(g);
        if ran {
          moves := Traced(moves, Move(before, mid, done, index));
        }
        if stop {
          break;
        }
        loopCount := loopCount + 1;
      }
    }

    /** Appends one dispatched command to a trace. */
    static ghost function Traced(moves: seq<Move>, m: Move): (r: seq<Move>)
      requires Trace(moves) && m.before <= m.mid && m.after == (if m.done then m.mid + 1 else m.mid)
      requires moves != [] ==> moves[|moves| - 1].done && moves[|moves| - 1].after <= m.before
      ensures |r| == |moves| + 1 && Trace(r) && moves <= r && r[|moves|] == m
    {
      moves + [m]
    }

    /** One iteration of Update's loop; `stop` is its `break`. `ran` says
        whether ExecuteCommand ran, `done` is its answer and `mid` the
        cursor it left. */
    method Turn(g: World) returns (stop: bool, ghost ran: bool, ghost done: bool, ghost mid: int)
      requires Valid() && g.Valid()
      modifies Repr, g
      decreases Repr, 1
      ensures Valid() && g.Valid() && Repr == old(Repr)
      ensures list == old(list) && updating == old(updating) && mainFlag == old(mainFlag) && loopCount == old(loopCount)
      ensures old(index) <= index && old(executed) <= executed <= old(executed) + 1
      ensures runned == (old(runned) || executed > old(executed))
      ensures child == null || (child == old(child) && stop && child.IsRunning() && !clearChild && index == old(index)
                                && waitCount == old(waitCount) && continuation == old(continuation)
                                && executed == old(executed))
      ensures old(child) != null && (old(clearChild) || old(child.list) == []) ==> child == null && !clearChild
      ensures old(child) == null ==> clearChild == old(clearChild)
      ensures old(child) == null && old(waitCount) > 0
              && !MessageHolds(mainFlag, old(g.boarding), old(g.message), if old(g.mapId) != old(mapId) then 0 else old(eventId))
              ==> stop && waitCount == old(waitCount) - 1 && index == old(index) && executed == old(executed)
      ensures ran == (executed > old(executed))
      ensures ran ==> old(index) <= mid && stop == !done && index == (if done then mid + 1 else mid)
      ensures !ran && old(child) == null && old(continuation) == NoContinuation ==> stop && index == old(index)
      ensures old(child) == null
              && (MessageHolds(mainFlag, old(g.boarding), old(g.message), if old(g.mapId) != old(mapId) then 0 else old(eventId))
                  || (old(waitCount) <= 0 && TempBlocks(old(g.temp))))
              ==> stop && unchanged(g) && index == old(index) && waitCount == old(waitCount)
                  && continuation == old(continuation) && executed == old(executed)
    {
      if g.mapId != mapId {
        eventId := 0;
      }
      if child != null {
        var survives := UpdateChild(g);
        if survives {
          return true, false, false, index;
        }
      }
      stop, ran, done, mid := Dispatch(g);
    }

    /** The child's part of an Update turn: the child is updated and
        dropped once it has stopped running or was marked for removal. */
    method UpdateChild(g: World) returns (survives: bool)
      requires Valid() && g.Valid() && child != null
      modifies this`child, this`clearChild, Repr - {this}, g
      decreases Repr, 0
      ensures Valid() && g.Valid()
      ensures survives == (child != null) && (child == null || child == old(child))
      ensures survives ==> child.IsRunning() && !clearChild
      ensures old(clearChild) || old(child.list) == [] ==> !survives && !clearChild
    {
      ghost var moves := child.Update(g);
      if !child.IsRunning() || clearChild {
        child, clearChild := null, false;
      }
      survives := child != null;
    }

    /** The rest of an Update turn, once no child is running: the message,
        wait and scene checks, the pending continuation, then one command.
        `stop` is the loop's `break`; `ran` says whether ExecuteCommand ran,
        `done` is its answer and `mid` the cursor it left: the cursor moves
        one past the command only when it answered true. */
    method Dispatch(g: World) returns (stop: bool, ghost ran: bool, ghost done: bool, ghost mid: int)
      requires Ready() && g.Valid()
      modifies this`waitCount, this`index, this`continuation, this`runned, this`executed, g
      ensures Ready() && g.Valid() && old(index) <= index
      ensures old(executed) <= executed <= old(executed) + 1 && runned == (old(runned) || executed > old(executed))
      ensures old(waitCount) > 0 && !MessageHolds(mainFlag, old(g.boarding), old(g.message), eventId)
              ==> stop && waitCount == old(waitCount) - 1 && index == old(index) && executed == old(executed)
      ensures MessageHolds(mainFlag, old(g.boarding), old(g.message), eventId)
              || (old(waitCount) <= 0 && TempBlocks(old(g.temp)))
              ==> stop && unchanged(g) && index == old(index) && waitCount == old(waitCount)
                  && continuation == old(continuation) && executed == old(executed)
      ensures !MessageHolds(mainFlag, old(g.boarding), old(g.message), eventId) && old(waitCount) <= 0
              && !TempBlocks(old(g.temp)) && old(continuation) != NoContinuation
              ==> && unchanged(g) && executed == old(executed) && continuation == NoContinuation
                  && (old(continuation) == ContinueDefault ==> !stop && index == old(index) + 1)
                  && (old(continuation) == ContinueChoices
                      ==> (!stop, index) == ChoiceWalk(list, old(index), if old(index) >= |list| then 0 else list[old(index)].indent,
                                                      g.message.choiceResult))
      ensures ran == (executed > old(executed))
      ensures ran ==> && old(continuation) == NoContinuation && old(waitCount) <= 0 && !TempBlocks(old(g.temp))
                      && !MessageHolds(mainFlag, old(g.boarding), old(g.message), eventId)
                      && old(index) < |list| && old(index) <= mid
                      && stop == !done && index == (if done then mid + 1 else mid)
      ensures !ran && old(continuation) == NoContinuation ==> stop && index == old(index)
    {
      if MessageHolds(mainFlag, g.boarding, g.message, eventId) {
        return true, false, false, index;
      }
      if waitCount > 0 {
        waitCount := waitCount - 1;
        return true, false, false, index;
      }
      if TempBlocks(g.temp) {
        return true, false, false, index;
      }
      if continuation != NoContinuation {
        var com := if index >= |list| then Empty else list[index];
        var result := RunContinuation(com, g);
        return !result, false, false, index;
      }
      stop, ran, done, mid := DispatchCommand(g);
    }

    /** The command half of a turn, with no continuation pending: the map
        refresh, then the command under the cursor. The cursor moves one
        past the command only when it answered true. */
    method DispatchCommand(g: World) returns (stop: bool, ghost ran: bool, ghost done: bool, ghost mid: int)
      requires Ready() && g.Valid()
      modifies this`waitCount, this`index, this`continuation, this`runned, this`executed, g
      ensures Ready() && g.Valid() && old(index) <= index
      ensures old(executed) <= executed <= old(executed) + 1 && ran == (executed > old(executed))
      ensures runned == (old(runned) || ran)
      ensures ran ==> old(index) < |list| && old(index) <= mid && stop == !done && index == (if done then mid + 1 else mid)
      ensures !ran ==> stop && index == old(index)
    {
      if !g.teleporting && g.refresh != NoRefresh {
        // Game_Map::Refresh
        g.refresh := NoRefresh;
      }
      // The source dispatches list[index] whatever the cursor; past the
      // end there is no command, and the call ends.
      if list == [] || index >= |list| {
        return true, false, false, index;
      }
      runned, executed := true, executed + 1;
      var ok := ExecuteCommand(g);
      ran, done, mid := true, ok, index;
      if !ok {
        return true, ran, done, mid;
      }
      index := index + 1;
      return false, ran, done, mid;
    }
  }
}

