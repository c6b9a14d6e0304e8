# Event interpreter and UTF transcoders, modelled in Dafny

This project models two parts of an RPG Maker 2000/2003 engine and proves
properties about them. Both are modelled in the imperative form the engine
uses.

1. **`Game_Interpreter`**, the event-command interpreter
   (`src/game_interpreter.cpp`). It is a resumable machine over a list of
   event commands `{code, indent, string, parameters}`. Its state is:
   - a cursor `index`;
   - a frame `wait_count`;
   - a one-slot continuation: the choice-branch resumption or the default
     resumption;
   - an optional child interpreter, with the `updating` and `clear_child`
     flags that defer its teardown;
   - `main_flag`, `depth`, `event_id` and `map_id`.

   Each `Update` call runs a loop of at most 10000 iterations. Each iteration
   checks what blocks it, then either resumes the continuation or dispatches
   the command under the cursor. The cursor moves on only when the command
   reports it is done.

   The commands read and write shared stores: clamped variables, switches, the
   message window record, the temporary scene flags, the party and its actors,
   gold and items. In the engine these are globals. Here they are the fields of
   one `GameState.World` object, which every call is handed.

   `Interpreter.GameInterpreter` is a class with these fields. Its methods state
   their new state in `ensures`, with `modifies` clauses naming the fields they
   touch. The scans (`SkipTo`, `GetChoices`, the continuation walk, the message
   line collection) and the actor loops are `while` loops. Each loop is proved
   against a pure specification function in the modules `Scan` and `Commands`,
   and lemmas prove the properties the engine relies on about those functions.

2. **The UTF transcoders and case maps** (`src/utils.cpp`). These are:
   - `LowerCase` and `UpperCase`;
   - `DecodeUTF16`: UTF-8 to UTF-16 code units;
   - `DecodeUTF32`: UTF-8 to code points;
   - the two `EncodeUTF` overloads, which go back to UTF-8.

   Module `Utils` holds each transcoder as a method with the source's iterator
   loop, stepping 1 to 4 positions per turn. Each is proved equal to a
   recursive specification in module `Utf`. Module `UtfLemmas` proves
   properties of those specifications:
   - the well-formedness table in section 4 of RFC 3629;
   - the surrogate pairs of section 2.1 of RFC 2781;
   - the round trips;
   - where the two decoders disagree.

Files:

| file | module | contents |
|---|---|---|
| `event_command.dfy` | `EventCommands` | the command record, the opcodes, the parameters each handler reads |
| `game_state.dfy` | `GameState` | the shared stores: `Message`, `Temp`, `Actor`, class `World` |
| `commands.dfy` | `Commands` | pure specifications of the handlers' arithmetic and actor loops |
| `scan.dfy` | `Scan` | specifications of `SkipTo`, `GetChoices`, the message lines and the choice walk |
| `interpreter.dfy` | `Interpreter` | class `GameInterpreter` |
| `utf.dfy` | `Utf` | specifications of the transcoders |
| `utf_lemmas.dfy` | `UtfLemmas` | properties of the transcoders |
| `utils.dfy` | `Utils` | the transcoders and case maps as loops |

Opcode values, `MinSize = -9999999`, `MaxSize = 9999999` and
`DEFAULT_FPS = 60` are defined in headers that are not part of this model.
The proofs rely only on these facts: the opcodes are distinct,
`MinSize <= 0 <= MaxSize`, and `DEFAULT_FPS` is 60.

Bounds the source does not check are handled as follows:
- Commands read `parameters[k]` without checking the length. The model makes
  this a precondition: `EventCommands.WellFormed` says that every command
  carries the parameters its handler reads in every engine mode. `Setup`
  requires it of the list.
- `CommandShakeScreen` reads the mode `parameters[4]` only outside RPG Maker
  2000, so a 2000 shake command has four parameters and `WellFormed` accepts
  it. Outside RPG Maker 2000 a command without the mode reads past the end in
  the source; the model takes it to set no wait.
- `Update` checks only `list.empty()` before `ExecuteCommand` reads
  `list[index]`. The model stops the call when `index >= |list|`.
- `CommandEndEventProcessing` sets `index = list.size()`, and `Update` then
  steps the cursor to one past the end. The model keeps this: the next turn
  stops at the same check.
- `GetChoices` reads `list[index + 1]`. When there is no such command, the
  model returns no choices.
- `ContinuationChoices` reads `parameters[0]` of the command `SkipTo` stopped
  at. When that position is past the end of the list or has no parameter, the
  model fails the walk.

## Model

| member | source | states |
|---|---|---|
| `Interpreter.GameInterpreter.constructor` | src/game_interpreter.cpp:46-59 | a new interpreter has the given depth and main flag, cursor 0, no list, no child, no continuation, no wait, and is not updating |
| `Interpreter.GameInterpreter.IsRunning` | src/game_interpreter.cpp:84-86 | an interpreter is running exactly while its list holds commands |
| `Interpreter.GameInterpreter.Clear` | src/game_interpreter.cpp:65-81 | map id, event id, wait, continuation, decision key, button timer and the waiting flags are reset and the list is emptied; a child in the middle of its own Update is kept and marked with clear_child, any other child is dropped; the cursor is left alone |
| `Interpreter.GameInterpreter.ResetRun` | src/game_interpreter.cpp:66-73 | the per-run fields Clear resets are zero, false or empty |
| `Interpreter.GameInterpreter.DropChild` | src/game_interpreter.cpp:74-79 | a child whose updating flag is set survives and clear_child is set; any other child is dropped |
| `Interpreter.GameInterpreter.Setup` | src/game_interpreter.cpp:89-111 | after Clear, the list is the given one with the cursor on its first command; the event id, the current map id, the decision-key flag and the debug position are recorded; the face name is cleared only for the main interpreter at depth 0 |
| `Interpreter.GameInterpreter.Start` | src/game_interpreter.cpp:97-106 | the fields Setup records hold the given values and the cursor is 0 |
| `Interpreter.GameInterpreter.SetupWait` | src/game_interpreter.cpp:117-124 | the wait count becomes the frames of the duration, with one frame for 0 |
| `Interpreter.WaitFramesExact` | src/game_interpreter.cpp:117-124 | at 60 frames per second, a wait of n tenths of a second lasts exactly 6n frames; 0 lasts one frame |
| `Interpreter.WaitFrames` | src/game_interpreter.cpp:117-124 | a duration of 0 or more tenths lasts at least one frame; a negative duration gives a negative count |
| `Scan.ScanFrom` | src/game_interpreter.cpp:267-284 | the scan ends at the first command indented below the minimum, or at the first command within the indent bounds whose code is one of the two codes, or exhausts the list; every command it passes is neither |
| `Scan.ScanUnique` | src/game_interpreter.cpp:267-284 | any position that is preceded only by passed commands and stops the scan is the position the scan reports |
| `Scan.SkipBounds` | src/game_interpreter.cpp:259-265 | a negative second code becomes the first code; a negative minimum or maximum indent becomes the current command's indent; the others keep their values |
| `Scan.SkipTarget` | src/game_interpreter.cpp:259-284 | a failed skip leaves the cursor where it was; a successful one leaves it where it was, inside the list, or at the list's end |
| `Interpreter.GameInterpreter.SkipTo` | src/game_interpreter.cpp:259-284 | the result and the new cursor are those of SkipTarget: false with the cursor unchanged at a command below the minimum indent, true on the first hit, and otherwise true with the cursor at the end only when otherwise_end is set |
| `Interpreter.GameInterpreter.Skip` | src/game_interpreter.cpp:267-284 | the loop's result and cursor are SkipTarget's |
| `Scan.EndAt` | src/game_interpreter.cpp:396-403 | the first end marker at the indent from a position on, or the list's length when there is none |
| `Scan.OptionPositions` | src/game_interpreter.cpp:388-404 | exactly the option commands at the indent before the end marker, in increasing order |
| `Scan.Strings` | src/game_interpreter.cpp:393-396 | the strings of the given positions, in order |
| `Scan.OptionStringsAt` | src/game_interpreter.cpp:388-404 | the strings the loop collects are the strings of OptionPositions |
| `Scan.DropCancel` | src/game_interpreter.cpp:399-402 | a trailing empty string is dropped only when more than one option was collected |
| `Scan.OptionStrings` | src/game_interpreter.cpp:388-404 | the loop collects at most one string per command between the start and the end marker |
| `Scan.Choices` | src/game_interpreter.cpp:385-409 | there are no choices when no command follows the cursor; otherwise at most one per command of the block |
| `Scan.ChoicesAreOptions` | src/game_interpreter.cpp:385-409 | the choices are the block's option strings in order; at most one is missing, and only when it is an empty last option after another option in a block that has its end marker |
| `Interpreter.GameInterpreter.GetChoices` | src/game_interpreter.cpp:385-409 | returns the choices of the block after the cursor, as Choices defines them |
| `Interpreter.GameInterpreter.CollectOptions` | src/game_interpreter.cpp:388-407 | the loop collects the option strings up to the first end marker at the indent, and reports whether it met one |
| `Interpreter.GameInterpreter.SetupChoices` | src/game_interpreter.cpp:466-478 | the choices start after the text, the choice count is recorded, nothing is disabled, at most the first four choices are appended, and the choice continuation is installed |
| `Interpreter.WithChoices` | src/game_interpreter.cpp:466-475 | the choices start after the existing text, the choice count is recorded, nothing is disabled, and the text gains the first four choices, in order |
| `Scan.RunLength` | src/game_interpreter.cpp:429-434 | the number of continuation-text commands directly after a message, none of them past the end, the next command not one |
| `Scan.Lines` | src/game_interpreter.cpp:429-434 | the strings of the commands in a range, in order |
| `Scan.RunLengthUnique` | src/game_interpreter.cpp:429-434 | a run of continuation lines that cannot be extended is the one RunLength counts |
| `Scan.ChoicesFitFinding` | src/game_interpreter.cpp:438-441 | with at most four lines, the unsigned test `size <= 4 - line_count` agrees with the intended `lines + size <= 4`; a five-line message folds two choices as written, though the intended test refuses them |
| `Scan.ChoicesFitAsWritten` | src/game_interpreter.cpp:441 | the test as written, on 32-bit unsigned ints: with at most four lines it is `lines + size <= 4`; with more lines it lets in any block of up to 2^32 + 4 - lines choices |
| `Scan.ChoicesFit` | src/game_interpreter.cpp:438-441 | the intended test: it holds exactly when the lines and the choices fit four rows, and then neither exceeds four |
| `Interpreter.Fold` | src/game_interpreter.cpp:434-459 | the cursor ends on the last line or on the following command; it moves on exactly when that command is a choice block passing the fit test as written or a number input after fewer than four lines |
| `Interpreter.FoldEffect` | src/game_interpreter.cpp:434-459 | folding keeps the text as a prefix, the pending flag and the owner; the cursor ends on the last line with nothing changed, or on the folded command; a folded choice block passed the fit test as written, installs the choice continuation and adds at most four choices, and with at most four lines the lines and the choices fit the four rows; a folded number input starts after the lines, needs fewer than four lines, and adds no text |
| `Interpreter.FoldOverflows` | src/game_interpreter.cpp:438-441 | after more than four lines, a following choice block of up to four choices is folded in as written, installing the choice continuation, although the lines and choices exceed four rows |
| `Interpreter.ShowMessageEffect` | src/game_interpreter.cpp:412-463 | once the window is free, the message is pending and owned by the event, and the text gains this command's line followed by exactly the N continuation lines, before anything folded |
| `Interpreter.GameInterpreter.CommandShowMessage` | src/game_interpreter.cpp:412-463 | refuses, changing nothing, while a message is pending or, for a parallel interpreter, visible; otherwise the cursor, continuation and message are those of Fold, with the fit test as written, on the opened message: 1+N lines, the cursor on the last line consumed or on the folded command |
| `Interpreter.GameInterpreter.OpenMessage` | src/game_interpreter.cpp:422-461 | the message is opened with this command's line, and the continuation lines and the fold, with the fit test as written, follow |
| `Interpreter.GameInterpreter.CollectLines` | src/game_interpreter.cpp:429-434 | the cursor moves over exactly the continuation lines, the line count is 1+N, and the text gains those N lines in order |
| `Interpreter.Opened` | src/game_interpreter.cpp:422-434 | the opened message is pending and owned by the event; nothing but the pending flag, the owner and the text differs from the message before (ShowMessageEffect states the text) |
| `Interpreter.GameInterpreter.FoldFollowing` | src/game_interpreter.cpp:435-459 | the cursor, continuation and message are those of Fold, with the fit test as written |
| `Interpreter.GameInterpreter.CommandShowChoices` | src/game_interpreter.cpp:499-513 | refuses, changing nothing, while the message has text; otherwise the message is pending and owned by the event, has the cancel type, and shows the choices after the cursor, and the choice continuation is installed |
| `Interpreter.GameInterpreter.CommandInputNumber` | src/game_interpreter.cpp:928-942 | refuses, changing nothing, while a message is pending; otherwise the message is pending, owned by the event, and set up for a number input at row 0 with the digits and the target variable |
| `Interpreter.GameInterpreter.CommandChangeFaceGraphic` | src/game_interpreter.cpp:945-954 | refuses, changing nothing, while another event's message is pending; otherwise sets the face name, index, side and flip |
| `Scan.ChoiceWalk` | src/game_interpreter.cpp:480-496 | the cursor never moves back; a successful walk leaves the cursor just after an option whose branch number is the player's choice |
| `Scan.WalkStep` | src/game_interpreter.cpp:483-485 | a failed SkipTo ends the walk in failure with the cursor unchanged; otherwise the walk goes on from where SkipTo stopped |
| `Scan.WalkAt` | src/game_interpreter.cpp:486-492 | reading a branch number above the choice fails, one below goes on to the next option, and an equal one succeeds just after it |
| `Interpreter.GameInterpreter.ContinuationChoices` | src/game_interpreter.cpp:480-496 | the slot is cleared, and the result and cursor are ChoiceWalk's from the cursor at the command's indent |
| `Interpreter.GameInterpreter.Walk` | src/game_interpreter.cpp:483-493 | the loop's result and cursor are ChoiceWalk's |
| `Interpreter.GameInterpreter.DefaultContinuation` | src/game_interpreter.cpp:1249-1253 | the slot is cleared, the cursor moves forward by exactly one, and the result is true |
| `Interpreter.GameInterpreter.RunContinuation` | src/game_interpreter.cpp:198-210 | the slot is always cleared; the default continuation steps past the command, and the choice continuation does the choice walk on the command under the cursor, or on an empty command past the end |
| `Commands.SetSwitch` | src/game_interpreter.cpp:522-533 | the switch is toggled for mode 2 and otherwise set to mode == 0; no other switch changes |
| `Commands.SwitchRangeEffect` | src/game_interpreter.cpp:519-530 | every switch in [p1, p2] is set or toggled from its own old value, and every other switch is unchanged |
| `Commands.SwitchRange` | src/game_interpreter.cpp:519-530 | no switch outside [lo, hi] changes |
| `Interpreter.GameInterpreter.CommandControlSwitches` | src/game_interpreter.cpp:516-543 | selectors 0 and 1 write the range, selector 2 writes the switch whose id is in variable p1, any other selector returns false and changes nothing; on success the whole map refreshes |
| `Commands.Truncation` | src/game_interpreter.cpp:757-768 | C++ division and remainder truncate toward zero and recompose the dividend |
| `Commands.TruncationBounds` | src/game_interpreter.cpp:757-768 | the remainder is smaller than the divisor and has the dividend's sign; the quotient is no larger than the dividend |
| `Commands.CDiv` | src/game_interpreter.cpp:757-761 | the truncated quotient is no larger than the dividend in magnitude, and is negative only when the signs differ and positive only when they agree |
| `Commands.CMod` | src/game_interpreter.cpp:762-768 | the truncated remainder is smaller than the divisor in magnitude and is 0 or has the dividend's sign |
| `Commands.Operate` | src/game_interpreter.cpp:738-768 | assignment stores the operand; division never grows the target; a remainder by a non-zero operand is smaller than it and keeps the target's sign; a remainder by zero stores 0 in range mode and keeps the target in indirect mode; an unknown operation keeps the target |
| `Commands.RandomIn` | src/game_interpreter.cpp:566-569 | the random operand lies in [min(p5, p6), max(p5, p6)] |
| `Commands.Operand` | src/game_interpreter.cpp:551-732 | selector 0 gives the constant; selector 3 gives a value in [min(p5, p6), max(p5, p6)]; selector 5 gives 0 for an unknown actor; selector 7 with p5 = 2 gives the party size; an unknown selector gives 0 |
| `Commands.OperandDeterministic` | src/game_interpreter.cpp:551-732 | the operand depends on rand() only for the random selector |
| `Commands.Orientation` | src/game_interpreter.cpp:671-675 | the orientation operand is one of the four direction codes 2, 4, 6 and 8, and 4 for any sprite direction other than 0, 1 and 2 |
| `Commands.WriteOne` | src/game_interpreter.cpp:738-776 | the written variable lies in [MinSize, MaxSize] and no other variable changes |
| `Commands.WriteRangeEffect` | src/game_interpreter.cpp:734-777 | every variable in [p1, p2] is written from its own old value and clamped, and every other variable is unchanged |
| `Commands.WriteRange` | src/game_interpreter.cpp:734-777 | variables outside [i, hi] are unchanged and every variable in [i, hi] lies in [MinSize, MaxSize] |
| `Commands.RangeWriteClamped` | src/game_interpreter.cpp:734-777 | after a range write every written variable lies in [MinSize, MaxSize] |
| `Commands.IndirectEffect` | src/game_interpreter.cpp:779-816 | the indirect write changes exactly the variable whose id is in variable p1, clamped |
| `Commands.ZeroDivisor` | src/game_interpreter.cpp:757-768 | division by zero leaves the target as it was; modulo by zero stores 0 in range mode and leaves the target in indirect mode |
| `Interpreter.GameInterpreter.CommandControlVariables` | src/game_interpreter.cpp:546-820 | for some value of rand(), the variables are the ones the range, indirect or no-op write of the operand leaves; the map refreshes and the result is true |
| `Interpreter.GameInterpreter.WriteVariables` | src/game_interpreter.cpp:734-816 | the loops write the range, or the indirect target, clamped, as the specification defines |
| `Interpreter.GameInterpreter.VariablesAfter` | src/game_interpreter.cpp:734-816 | every variable is either unchanged or lies in [MinSize, MaxSize]; an unknown selector leaves the variables as they were |
| `Commands.OperateValue` | src/game_interpreter.cpp:822-837 | a constant or a variable, negated for operation 1 |
| `Commands.OperateValueSign` | src/game_interpreter.cpp:822-837 | operation 1 negates the operand that operation 0 gives; every other operation gives it unchanged |
| `Commands.ValueOrVariable` | src/game_interpreter.cpp:1004-1013 | a constant for mode 0, a variable for mode 1, -1 otherwise |
| `Commands.GetActors` | src/game_interpreter.cpp:839-863 | the whole party for mode 0; the actor with the given id, or held in the given variable, for modes 1 and 2, and none when unknown; none for any other mode |
| `Commands.GetActorsKnown` | src/game_interpreter.cpp:839-863 | every actor returned is a known actor |
| `Commands.GetActorsAllKnown` | src/game_interpreter.cpp:839-863 | for a valid party, every target GetActors returns is a known actor |
| `Interpreter.GameInterpreter.Targets` | src/game_interpreter.cpp:839-863 | the targets are GetActors', all of them known actors |
| `Commands.CheckGameOver` | src/game_interpreter.cpp:251-256 | game over changes only when no member is active, and is then set to whether the party has anyone in it |
| `Interpreter.GameInterpreter.CheckGameOver` | src/game_interpreter.cpp:251-256 | only the game-over flag of the scene flags changes, as Commands.CheckGameOver says |
| `Interpreter.GameInterpreter.CommandChangeGold` | src/game_interpreter.cpp:875-887 | gold changes by the operand, negated for removal; the result is true |
| `Commands.ItemsAfter` | src/game_interpreter.cpp:890-925 | the add form never lowers the count and the remove form never raises it; no other item changes |
| `Interpreter.GameInterpreter.CommandChangeItems` | src/game_interpreter.cpp:890-925 | the item, a constant or the id in a variable, changes as ItemsAfter says; the map refreshes unless the change was refused |
| `Commands.Without` | src/game_interpreter.cpp:957-987 | removal leaves exactly the other members and never lengthens the party |
| `Commands.With` | src/game_interpreter.cpp:957-987 | addition leaves exactly the old members and the new one |
| `Interpreter.GameInterpreter.CommandChangePartyMember` | src/game_interpreter.cpp:957-987 | an unknown actor changes nothing; a known one is added or removed, and only a removal checks for game over; the map refreshes and the party stays valid |
| `Commands.Apply` | src/game_interpreter.cpp:1066-1134 | the per-actor effect keeps the actor within its HP and SP ranges |
| `Commands.ApplyExact` | src/game_interpreter.cpp:1066-1134 | HP moves by the amount within [0, max HP], or within [1, max HP] when not lethal; SP moves within [0, max SP]; a full heal restores HP and SP and clears every state |
| `Commands.ApplyAll` | src/game_interpreter.cpp:1066-1134 | the loop over the targets keeps the set of actors and every actor valid |
| `Commands.ApplyAllEffect` | src/game_interpreter.cpp:1066-1134 | over distinct targets, each targeted actor receives the effect once and every other actor is unchanged |
| `Commands.KeepsFloor` | src/game_interpreter.cpp:1075-1081 | a non-lethal HP change keeps an actor that has at least 1 HP at 1 HP or more |
| `Commands.NonLethalFloor` | src/game_interpreter.cpp:1075-1081 | with lethal off, every targeted actor ends at 1 HP or more |
| `Commands.ApplyHpCarry` | src/game_interpreter.cpp:1066-1088 | the loop as written, where the adjusted amount carries into later actors, keeps every actor valid |
| `Commands.HpCarryDiverges` | src/game_interpreter.cpp:1075-1081 | two members with 5 and 100 HP lose 20, lethal off: as written the second ends at 96, per actor at 80 |
| `Commands.CarryFloor` | src/game_interpreter.cpp:1075-1081 | even as written, with lethal off every targeted actor ends with at least 1 HP |
| `Commands.CarryKeepsFloor` | src/game_interpreter.cpp:1075-1081 | as written with lethal off, an actor with at least 1 HP keeps at least 1 HP whatever the carried amount |
| `Commands.CarryLethal` | src/game_interpreter.cpp:1066-1088 | with lethal on the amount is never adjusted, so the loop as written gives each target the requested change, as ApplyAll does |
| `Interpreter.GameInterpreter.ApplyEach` | src/game_interpreter.cpp:1090-1134 | the loop over the targets leaves the actors ApplyAll says; it serves the SP change and the full heal |
| `Interpreter.GameInterpreter.CommandChangeHP` | src/game_interpreter.cpp:1066-1088 | the actors are those of ApplyHpCarry, the loop as written, over the targets with the amount negated for removal; game over is checked only when lethal |
| `Interpreter.GameInterpreter.CarryEach` | src/game_interpreter.cpp:1075-1081 | the loop on the actors field, with the adjusted amount carried from one target to the next, leaves the actors ApplyHpCarry says |
| `Interpreter.GameInterpreter.CommandChangeSP` | src/game_interpreter.cpp:1090-1105 | each target's SP becomes sp + amount, negated for removal, within [0, max SP] |
| `Interpreter.GameInterpreter.CommandFullHeal` | src/game_interpreter.cpp:1126-1134 | each target is restored and cleansed |
| `Commands.Condition` | src/game_interpreter.cpp:1107-1124 | adding or removing a state keeps the actor valid |
| `Commands.ConditionAll` | src/game_interpreter.cpp:1107-1124 | the loop keeps the set of actors and every actor valid; removals never change game over |
| `Commands.PartyDeathIsGameOver` | src/game_interpreter.cpp:1107-1124 | inflicting state 1 on a non-empty party sets game over |
| `Commands.DeathWalk` | src/game_interpreter.cpp:1107-1124 | the walk behind PartyDeathIsGameOver: once every earlier member is at 0 HP, the last addition finds no one active |
| `Interpreter.GameInterpreter.CommandChangeCondition` | src/game_interpreter.cpp:1107-1124 | the actors and game over are ConditionAll's over the targets; no other scene flag changes |
| `Interpreter.GameInterpreter.ConditionEach` | src/game_interpreter.cpp:1113-1123 | the loop leaves the actors and the game-over flag ConditionAll says |
| `Interpreter.GameInterpreter.ConditionWalk` | src/game_interpreter.cpp:1113-1123 | the loop on the values leaves ConditionAll's actors and game-over flag |
| `GameState.Clamp` | src/game_interpreter.cpp:770-775 | the result lies in [lo, hi], is the value itself when the value is in range, and is the nearer bound otherwise |
| `GameState.ChangeHp` | src/game_interpreter.cpp:1076-1080 | the actor's HP moves by the amount when that stays within [0, max HP]; the actor stays valid and nothing else changes |
| `GameState.SetSp` | src/game_interpreter.cpp:1098-1101 | the actor's SP is the stored value when that is within [0, max SP]; the actor stays valid and nothing else changes |
| `GameState.PartyKept` | src/game_interpreter.cpp:1066-1134 | replacing actors by valid ones keeps the party valid |
| `Interpreter.GameInterpreter.CommandWait` | src/game_interpreter.cpp:353-361 | a plain wait sets up the frames and continues; the wait-for-key form continues only once a key is hit and leaves the wait count alone |
| `Interpreter.GameInterpreter.CommandTintScreen` | src/game_interpreter.cpp:1163-1178 | sets up a wait of the duration only when asked to wait; always continues |
| `Interpreter.GameInterpreter.CommandFlashScreen` | src/game_interpreter.cpp:1180-1210 | only a single flash that is asked to wait sets up a wait; starting or ending a repeated flash never waits; always continues |
| `Interpreter.GameInterpreter.CommandShakeScreen` | src/game_interpreter.cpp:1212-1242 | only a single shake (always in RPG Maker 2000) that is asked to wait sets up a wait; always continues; a command without the mode parameter is accepted, and outside RPG Maker 2000 it sets no wait |
| `EventCommands.ShakeWithoutMode` | src/game_interpreter.cpp:1212-1223 | a four-parameter shake command, as RPG Maker 2000 stores it, is a command the handlers can read |
| `Interpreter.GameInterpreter.CommandEndEventProcessing` | src/game_interpreter.cpp:1244-1247 | the cursor goes to the end of the list and the result is true |
| `Interpreter.GameInterpreter.CommandGameOver` | src/game_interpreter.cpp:1255-1259 | sets game over, installs the default continuation and returns false |
| `Interpreter.GameInterpreter.ExecuteMessage` | src/game_interpreter.cpp:290-302 | the handler table for the message codes: ShowMessage, ChangeFaceGraphic, ShowChoice and InputNumber do what their command methods state, and ShowChoiceOption skips to the ShowChoiceEnd at its indent, as SkipTarget says |
| `Interpreter.GameInterpreter.ExecuteStore` | src/game_interpreter.cpp:303-326 | the handler table for the store codes: each switch, variable, gold, item, party and HP, SP, condition and heal command leaves the stores its command method states and writes no other store, and none writes the message; ChangeLevel and ChangeSkills change nothing and continue; ChangeEquipment changes nothing and continues only for forms 0 and 1; the party stays valid |
| `Interpreter.GameInterpreter.ExecuteVariables` | src/game_interpreter.cpp:303-306 | the switch and variable commands follow the store table |
| `Interpreter.GameInterpreter.ExecuteParty` | src/game_interpreter.cpp:307-318 | the gold, item, party, level, skill and equipment commands follow the store table |
| `Interpreter.GameInterpreter.ExecuteActors` | src/game_interpreter.cpp:319-326 | the HP, SP, condition and heal commands follow the store table |
| `Interpreter.GameInterpreter.ExecutePoints` | src/game_interpreter.cpp:319-322 | the HP and SP changes follow the store table |
| `Interpreter.GameInterpreter.ExecuteHealth` | src/game_interpreter.cpp:323-326 | the condition change and the full heal follow the store table |
| `Interpreter.GameInterpreter.ExecuteWait` | src/game_interpreter.cpp:327-334 | the handler table for the screen and wait codes: tint, flash and shake set up their wait only when asked to, and continue; a plain wait sets up its frames, and a wait for a key continues only once a key is hit |
| `Interpreter.GameInterpreter.ExecuteCommand` | src/game_interpreter.cpp:287-351 | dispatches by opcode: the message, store and wait groups behave as the tables of ExecuteMessage, ExecuteStore and ExecuteWait say, the message commands writing no store but the message and the wait commands none; end processing goes to the end and changes no store; game over sets only the game-over flag and suspends; every other code (the end marker, the comments, the audio commands, End and the default) changes nothing and continues |
| `Interpreter.GameInterpreter.ExecuteData` | src/game_interpreter.cpp:290-326 | the message and store commands: the message table with only the message written, or the store table; only ShowMessage and the option skip move the cursor |
| `Interpreter.GameInterpreter.ExecuteControl` | src/game_interpreter.cpp:327-349 | the waiting, audio, end, game-over and remaining codes: only end processing moves the cursor and only game over the continuation; the stores change only for game over, and only its flag |
| `Interpreter.GameInterpreter.Update` | src/game_interpreter.cpp:135-239 | at most 10000 iterations, at most one command dispatched each; a ghost trace records each command run: the cursor stays where it was until that command returns true, then steps past it, and never moves back in between; a child that stopped running or was marked for removal is dropped; a surviving child ends the call with the cursor, wait and continuation unchanged; a message that holds the interpreter, or the scene flags with no wait left, end the call at once with nothing changed; with no child and nothing holding the message, a positive wait count drops by exactly one and the call ends with no command run; the updating flag is clear afterwards |
| `Interpreter.GameInterpreter.Iterate` | src/game_interpreter.cpp:139-230 | the remaining iterations of the loop extend the trace by one move per command run, each move keeping the cursor until its command returns true |
| `Interpreter.GameInterpreter.Turn` | src/game_interpreter.cpp:141-230 | one iteration: at most one command, recorded as a move; the cursor stays on the command until it returns true and then steps past it; a surviving child, a counted-down wait, a holding message or blocking scene flags end the call |
| `Interpreter.GameInterpreter.UpdateChild` | src/game_interpreter.cpp:147-160 | the child is updated, then dropped, with clear_child reset, when it has stopped running or was marked for removal; a surviving child is running |
| `Interpreter.GameInterpreter.Dispatch` | src/game_interpreter.cpp:162-230 | the blocking checks come first: a holding message, or blocking scene flags with no wait left, stop the call with nothing changed; with nothing holding the message, a positive wait drops by exactly one and ends the call with no command run; a pending continuation then runs in place of a command: the default one steps past the command, the choice one does the choice walk; otherwise at most one command runs, and the cursor moves forward only after it returns true |
| `Interpreter.MessageHolds` | src/game_interpreter.cpp:162-171 | a pending message holds the main interpreter, and a parallel one when the message is its own; a parallel interpreter is never held by another event's message; with nothing shown, pending or boarding nothing holds |
| `GameState.TempBlocks` | src/game_interpreter.cpp:178-196 | game over, a return to title or a transition blocks; a called battle blocks until it runs; a running battle with no other scene call does not block |
| `Interpreter.GameInterpreter.DispatchCommand` | src/game_interpreter.cpp:212-230 | an empty list or a cursor at the end stops with no command run; otherwise exactly one command runs, and the cursor steps past it only when the command returns true |
| `Utf.Turn16` | src/utils.cpp:38-106 | every turn of DecodeUTF16 that emits consumes 1 to 4 bytes of the input |
| `Utf.Decode16` | src/utils.cpp:35-108 | DecodeUTF16 never yields more UTF-16 units than it read bytes |
| `Utf.Turn32` | src/utils.cpp:113-173 | every turn of DecodeUTF32 that emits consumes 1 to 4 bytes of the input |
| `Utf.Decode32` | src/utils.cpp:110-175 | DecodeUTF32 never yields more code points than it read bytes |
| `Utf.EncTurn16` | src/utils.cpp:180-216 | every turn of EncodeUTF(u16string) that emits consumes 1 or 2 code units |
| `Utf.Encode16` | src/utils.cpp:177-218 | EncodeUTF(u16string) writes at most three bytes per UTF-16 unit |
| `Utf.EncodeScalar` | src/utils.cpp:222-242 | a scalar value becomes one to four bytes, exactly one when it is below 0x80 |
| `Utf.Encode32` | src/utils.cpp:220-245 | EncodeUTF(u32string) writes at most four bytes per code point |
| `Utf.Pair4Lemma` | src/utils.cpp:96-104 | the surrogates built from an accepted four-byte sequence are a high one and a low one |
| `UtfLemmas.CaseMaps` | src/utils.cpp:23-33 | both case maps keep the length; lower case leaves no upper-case letter and upper case no lower-case letter; bytes that are not letters of the mapped case are kept; each map undoes the other |
| `Utils.LowerCase` | src/utils.cpp:23-27 | the result is the string with every byte mapped through tolower |
| `Utils.UpperCase` | src/utils.cpp:29-33 | the result is the string with every byte mapped through toupper |
| `UtfLemmas.AsciiIdentity` | src/utils.cpp:39-41 | bytes below 0x80 decode to themselves in both decoders, and values below 0x80 encode back to that single byte in both encoders |
| `UtfLemmas.SkipsAndTruncation` | src/utils.cpp:42-47 | lead bytes 0x80-0xC1 and 0xF5-0xFF are skipped by both decoders, and a multi-byte sequence cut short by the end of the input stops both |
| `UtfLemmas.RejectsIllFormed` | src/utils.cpp:58-95 | an overlong form (E0 below A0, F0 below 90), an encoded surrogate (ED from A0) or a value above U+10FFFF (F4 from 90) yields nothing in both decoders, and decoding resumes after it |
| `UtfLemmas.Turn32Scalars` | src/utils.cpp:113-173 | one turn of DecodeUTF32 emits only scalar values |
| `UtfLemmas.Decode32Scalars` | src/utils.cpp:110-175 | every value DecodeUTF32 outputs is at most U+10FFFF and outside D800-DFFF |
| `UtfLemmas.Turn16WellFormed` | src/utils.cpp:38-106 | one turn of DecodeUTF16 emits one unit outside the surrogates, or a high surrogate followed by a low one |
| `UtfLemmas.Decode16WellFormed` | src/utils.cpp:96-104 | DecodeUTF16 never emits a lone surrogate: a four-byte sequence becomes a high surrogate in D800-DBFF followed by a low one in DC00-DFFF |
| `UtfLemmas.TwoByteDivergence` | src/utils.cpp:48-50 | after a two-byte lead and a byte that is not a continuation byte, DecodeUTF16 has consumed that byte, while DecodeUTF32 reads it again as the next lead |
| `UtfLemmas.DivergenceExample` | src/utils.cpp:123-125 | the bytes C3 41 decode to nothing as UTF-16 but to U+0041 as UTF-32 |
| `UtfLemmas.Encode16Surrogates` | src/utils.cpp:193-209 | EncodeUTF(u16string) skips a lone low surrogate, drops a high surrogate together with a following unit that is not a low surrogate, and stops at a high surrogate that is the last unit |
| `UtfLemmas.Encode32StopsAtInvalid` | src/utils.cpp:222-242 | EncodeUTF(u32string) stops at the first surrogate or value above 0x10FFFF: nothing from that unit on reaches the output |
| `UtfLemmas.EncodeScalarShape` | src/utils.cpp:222-242 | a scalar value becomes 1, 2, 3 or 4 bytes, split at 0x80, 0x800 and 0x10000, each a well-formed UTF-8 sequence |
| `UtfLemmas.DecodeEncode32` | src/utils.cpp:110-175 | DecodeUTF32 after EncodeUTF(u32string) gives back any sequence of scalar values |
| `UtfLemmas.EncodeDecode32` | src/utils.cpp:220-245 | EncodeUTF(u32string) after DecodeUTF32 gives back any well-formed UTF-8 |
| `UtfLemmas.DecodeEncode16` | src/utils.cpp:35-108 | DecodeUTF16 after EncodeUTF(u16string) gives back any well-formed UTF-16 |
| `UtfLemmas.EncodeDecode16` | src/utils.cpp:177-218 | EncodeUTF(u16string) after DecodeUTF16 gives back any well-formed UTF-8, the surrogate pairs turned back into four-byte sequences |
| `UtfLemmas.PairDecEnc` | src/utils.cpp:96-104 | the surrogate pair built from a four-byte sequence encodes back to those four bytes |
| `UtfLemmas.PairEncDec` | src/utils.cpp:193-209 | the four bytes written for a surrogate pair decode back to that pair |
| `UtfLemmas.Decode32Append` | src/utils.cpp:110-175 | decoding a well-formed prefix as code points does not depend on what follows it |
| `UtfLemmas.Decode16Append` | src/utils.cpp:35-108 | decoding a well-formed prefix as UTF-16 does not depend on what follows it |
| `Utils.DecodeTurn16` | src/utils.cpp:38-106 | the loop body leaves the units and step of one Turn16, or halts exactly when Turn16 halts |
| `Utils.DecodeUTF16` | src/utils.cpp:35-108 | the loop's output is Decode16 of the input |
| `Utils.DecodeTurn32` | src/utils.cpp:113-173 | the loop body leaves the code point and step of one Turn32, or halts exactly when Turn32 halts |
| `Utils.DecodeUTF32` | src/utils.cpp:110-175 | the loop's output is Decode32 of the input |
| `Utils.EncodeTurn16` | src/utils.cpp:180-216 | the loop body leaves the bytes and step of one EncTurn16, or halts exactly when EncTurn16 halts |
| `Utils.EncodeUTF16` | src/utils.cpp:177-218 | the loop's output is Encode16 of the input |
| `Utils.EncodeUTF32` | src/utils.cpp:220-245 | the loop's output is Encode32 of the input |

## Left out

- Audio, screen effects and the map: `Game_System::BgmPlay`, `SePlay`, `Audio().BGM_Fade`, `Game_Screen` tint, flash and shake, and `Game_Map::Refresh`. These are I/O. The model keeps each command's effect on the interpreter: PlayBGM, FadeOutBGM and PlaySound continue. Tint, flash and shake only set up their wait. The map refresh request is a three-level field (`World.refresh`). `Game_Map::Refresh` clears it.
- Collaborator queries: `Game_Player::IsBoardingOrUnboarding`, `IsTeleporting`, `Input::IsAnyTriggered` and `Player::IsRPG2k` are boolean fields of `World`. Control-variable operands that read data this model does not describe come from one `World.queries` map, keyed by the operand selector. That data is equipment counts, actor statistics other than HP and SP, character positions, timers and counters.
- `rand()`: `CommandControlVariables` takes any natural number as its value, and its contract quantifies over it.
- Game_Actor and Game_Party: they are not part of this model. `ChangeHp` and `SetSp` are assumed to clamp into [0, max]. `AddActor` is assumed to append an actor that is not yet a member, and `RemoveActor` to drop every occurrence. `GainGold` and `AddItem` are assumed to be plain addition.
- `ChangeLevel`, `ChangeSkills` and `ChangeEquipment` only continue (ChangeEquipment refuses an unknown form). Their effects belong to Game_Actor.
- C++ `int` overflow is undefined behaviour in the source: inside `+=` and `*=` (src/game_interpreter.cpp:746, :754), before the clamp, and in `duration * DEFAULT_FPS` in SetupWait (src/game_interpreter.cpp:122) once the absolute duration exceeds 35791394. The model computes with mathematical integers.
- `Output` logging, including the execution-limit message and the depth warning, is left out.
- `CallEvent` is not part of this model, so no child interpreter is ever created here. Update's child handling is still modelled and proved for any child already present.
- `CancelMenuCall` is empty in the source. The dummy continuations are never installed by the commands modelled.
- `CommandEnd` is never dispatched, because ExecuteCommand's switch has no case for End. The model lets End fall through to "continue", as the switch's default does.
- `Utils::IsBigEndian`, `ToWideString` and `FromWideString` are left out. They depend on the platform.
- `src/audio_psp2.cpp` and `src/window_keyboard.cpp` are left out. They are a streaming thread and an input-driven UI window.
- `LowerCase` and `UpperCase` use the C locale's `tolower`/`toupper`, which map only ASCII letters.
- Value-level loops: `Skip`, `CollectOptions`, `Walk` and `ConditionWalk` run on copies of the list or of the actors, and the results are then written back to the fields. Nothing else can observe the fields during these loops. The loops that run on the fields in place are `SetupChoices`, `CommandControlSwitches`, `WriteVariables`, `ApplyEach` and `CarryEach`.
- Interpreter.GameInterpreter.Update: the blocking checks are stated for the first iteration only; the later iterations rely on them through Dispatch and the trace. The first iteration is written out before the loop, which `Iterate` continues.
- The default arguments of `SkipTo` (`-1, -1, -1, false`, used by the option skip) are declared in a header that is not part of this model. The model passes them explicitly.
- `Game_Party::IsAnyActive` is not part of this model. `GameState.Active` (HP above 0) stands in for it in the game-over check.

## Findings

| source | as written | input that shows it | evidently intended | confidence | as-written member | corrected member |
|---|---|---|---|---|---|---|
| src/game_interpreter.cpp:1075-1081 | with lethal off, the amount adjusted to leave an actor at 1 HP is assigned back to the loop's shared `amount`, so it carries into every later actor | two members with 5 and 100 HP lose 20 HP, lethal off: the second ends at 96 instead of 80 | each actor receives the requested change, floored at 1 HP | not executed | `Commands.ApplyHpCarry`, `Commands.HpCarryDiverges`, `Commands.CarryFloor` | `Commands.ApplyAll`, `Commands.NonLethalFloor` |
| src/game_interpreter.cpp:438-441 | the fit test for a following choice block is `size <= 4 - line_count` on unsigned ints, which wraps around once a message has more than four lines | a message of five lines followed by two choices: the choices are folded in | the lines and the choices together fit the window's four rows | not executed | `Scan.ChoicesFitAsWritten`, `Interpreter.FoldOverflows` | `Scan.ChoicesFit`, `Scan.ChoicesFitFinding` |

The interpreter methods follow the code as written: `CommandChangeHP` applies `ApplyHpCarry`, and the message fold uses `ChoicesFitAsWritten`. The corrected definitions are kept beside them with the intended properties proved about them.
