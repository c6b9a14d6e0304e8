// Event commands: the records an event's command list is made of, the
// opcodes the interpreter dispatches on, and how many parameters each
// handler reads.

module EventCommands {

  /** One command of an event page: RPG::EventCommand. */
  datatype EventCommand = EventCommand(code: int, indent: int, str: seq<char>, parameters: seq<int>)

  /** A default-constructed RPG::EventCommand, handed to a continuation
      when the cursor is past the end of the list. */
  const Empty := EventCommand(0, 0, "", [])

  // Opcodes (Cmd::…) of the commands the interpreter knows.
  const End := 10
  const ShowMessage := 10110
  const ChangeFaceGraphic := 10130
  const ShowChoice := 10140
  const InputNumber := 10150
  const ControlSwitches := 10210
  const ControlVars := 10220
  const ChangeGold := 10310
  const ChangeItems := 10320
  const ChangePartyMembers := 10330
  const ChangeLevel := 10420
  const ChangeSkills := 10440
  const ChangeEquipment := 10450
  const ChangeHP := 10460
  const ChangeSP := 10470
  const ChangeCondition := 10480
  const FullHeal := 10490
  const TintScreen := 11030
  const FlashScreen := 11040
  const ShakeScreen := 11050
  const Wait := 11410
  const PlayBGM := 11510
  const FadeOutBGM := 11520
  const PlaySound := 11550
  const EndEventProcessing := 12310
  const Comment := 12410
  const GameOver := 12420
  const ShowMessage2 := 20110
  const ShowChoiceOption := 20140
  const ShowChoiceEnd := 20141
  const Comment2 := 22410

  /** The number of parameters the handler for `code` may read; the
      handlers index `parameters[k]` without checking the length. */
  function Arity(code: int): nat
  {
    if code == ShowChoice || code == Wait || code == FadeOutBGM then 1
    else if code == InputNumber || code == FullHeal then 2
    else if code == ChangeFaceGraphic || code == ChangeGold || code == ChangePartyMembers
         || code == PlaySound then 3
    else if code == ControlSwitches || code == ChangeCondition || code == PlayBGM
         || code == ShakeScreen then 4
    else if code == ChangeItems || code == ChangeSkills || code == ChangeEquipment
         || code == ChangeSP then 5
    else if code == ChangeLevel || code == ChangeHP || code == TintScreen
         || code == FlashScreen then 6
    else if code == ControlVars then 7
    else 0
  }

  /** A command the handlers can read without leaving its parameters. */
  predicate CommandOk(c: EventCommand)
  {
    c.indent >= 0 && |c.parameters| >= Arity(c.code)
  }

  /** A shake command of RPG Maker 2000, which has no mode parameter, is a
      command the handlers can read. */
  lemma ShakeWithoutMode(strength: int, speed: int, tenths: int, wait: int, indent: nat)
    ensures CommandOk(EventCommand(ShakeScreen, indent, "", [strength, speed, tenths, wait]))
  {
  }

  /** A command list every handler can read. */
  predicate WellFormed(list: seq<EventCommand>)
  {
    forall k :: 0 <= k < |list| ==> CommandOk(list[k])
  }
}
