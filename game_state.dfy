// The shared stores the interpreter's commands read and write: the
// variables and switches, the message window record, the temporary scene
// flags, the party with its actors, and the map.  In the program these
// are globals; here they are the fields of one World object that the
// interpreter is handed.

module GameState {

  /** The range every variable is clamped to after a write. */
  const MinSize := -9999999
  const MaxSize := 9999999

  /** Frames per second; a wait of n tenths of a second is n * DefaultFps / 10 frames. */
  const DefaultFps := 60

  function Clamp(v: int, lo: int, hi: int): (r: int)
    requires lo <= hi
    ensures lo <= r <= hi
    ensures lo <= v <= hi ==> r == v
    ensures v < lo ==> r == lo
    ensures v > hi ==> r == hi
  {
    if v > hi then hi else if v < lo then lo else v
  }

  /** A variable's value; an id never written reads as 0. */
  function Var(vars: map<int, int>, id: int): int
  {
    if id in vars then vars[id] else 0
  }

  /** A switch's value; an id never written reads as off. */
  function Switch(sw: map<int, bool>, id: int): bool
  {
    id in sw && sw[id]
  }

  /** Game_Message: the message window's text and its choice and
      number-input setup. */
  datatype Message = Message(
    texts: seq<string>,
    messageWaiting: bool,
    visible: bool,
    ownerId: int,
    choiceStart: int,
    choiceMax: int,
    choiceCancelType: int,
    choiceResult: int,
    choiceDisabled: set<int>,
    numInputStart: int,
    numInputDigitsMax: int,
    numInputVariableId: int,
    faceName: string,
    faceIndex: int,
    faceRight: bool,
    faceFlipped: bool)

  /** Game_Temp: scene requests and states that stop the interpreter. */
  datatype Temp = Temp(
    forcingBattler: bool,
    transitionProcessing: bool,
    battleCalling: bool,
    battleRunning: bool,
    shopCalling: bool,
    nameCalling: bool,
    menuCalling: bool,
    saveCalling: bool,
    loadCalling: bool,
    toTitle: bool,
    gameover: bool)

  /** The flags under which Update ends its call without running a command. */
  predicate TempBlocks(t: Temp): (r: bool)
    ensures t.gameover || t.toTitle || t.transitionProcessing ==> r
    ensures t.battleCalling && !t.battleRunning ==> r
    ensures (t.battleRunning && !t.forcingBattler && !t.transitionProcessing && !t.shopCalling && !t.nameCalling
            && !t.menuCalling && !t.saveCalling && !t.loadCalling && !t.toTitle && !t.gameover) ==> !r
  {
    t.forcingBattler || t.transitionProcessing || (t.battleCalling && !t.battleRunning)
    || t.shopCalling || t.nameCalling || t.menuCalling || t.saveCalling
    || t.loadCalling || t.toTitle || t.gameover
  }

  /** Game_Map::SetNeedRefresh's levels. */
  datatype Refresh = NoRefresh | RefreshMap | RefreshAll

  /** The part of Game_Actor the commands touch. */
  datatype Actor = Actor(hp: int, maxHp: int, sp: int, maxSp: int, states: set<int>)

  predicate ActorOk(a: Actor)
  {
    1 <= a.maxHp && 0 <= a.hp <= a.maxHp && 0 <= a.sp <= a.maxSp
  }

  /** Game_Actor::ChangeHp: adds its argument, within [0, max HP]. */
  function ChangeHp(a: Actor, n: int): (r: Actor)
    requires ActorOk(a)
    ensures ActorOk(r) && r.sp == a.sp && r.states == a.states && r.maxHp == a.maxHp
    ensures 0 <= a.hp + n <= a.maxHp ==> r.hp == a.hp + n
  {
    a.(hp := Clamp(a.hp + n, 0, a.maxHp))
  }

  /** Game_Actor::SetSp: stores its argument, within [0, max SP]. */
  function SetSp(a: Actor, v: int): (r: Actor)
    requires ActorOk(a)
    ensures ActorOk(r) && r.hp == a.hp && r.states == a.states && r.maxSp == a.maxSp
    ensures 0 <= v <= a.maxSp ==> r.sp == v
  {
    a.(sp := Clamp(v, 0, a.maxSp))
  }

  /** An actor that can still act: alive. */
  predicate Active(a: Actor)
  {
    a.hp > 0
  }

  /** Every party member is a known actor and every actor is in range. */
  predicate PartyOk(members: seq<int>, actors: map<int, Actor>)
  {
    (forall k :: 0 <= k < |members| ==> members[k] in actors)
    && (forall id :: id in actors ==> ActorOk(actors[id]))
  }

  /** Replacing actors by valid ones keeps the party valid. */
  lemma PartyKept(members: seq<int>, before: map<int, Actor>, after: map<int, Actor>)
    requires PartyOk(members, before) && after.Keys == before.Keys
    requires forall id :: id in after ==> ActorOk(after[id])
    ensures PartyOk(members, after)
  {
  }

  /** The shared stores. Queries to collaborators that this model does not
      describe (item equipment counts, actor statistics other than HP and SP,
      character positions, timers, counters) are answered by `queries`,
      keyed by the ControlVariables operand selector (type, p5, p6). */
  class World {
    var variables: map<int, int>
    var switches: map<int, bool>
    var message: Message
    var temp: Temp
    var gold: int
    var items: map<int, int>
    var members: seq<int>
    var actors: map<int, Actor>
    var mapId: int
    var refresh: Refresh
    // Game_Player::IsBoardingOrUnboarding, IsTeleporting; Input::IsAnyTriggered;
    // Player::IsRPG2k.
    var boarding: bool
    var teleporting: bool
    var anyTriggered: bool
    var rpg2k: bool
    var queries: map<(int, int, int), int>

    ghost predicate Valid()
      reads this
    {
      PartyOk(members, actors)
    }

    /** The answer to a query this model leaves to collaborators; 0 when none. */
    function Query(kind: int, a: int, b: int): int
      reads this
    {
      if (kind, a, b) in queries then queries[(kind, a, b)] else 0
    }
  }

  /** The stores of `World` that a command may write; the others (the map
      id and the collaborator answers) no command of this model writes. */
  datatype Store = Variables | Switches | MessageStore | TempStore | Gold | Items | Members | Actors | RefreshStore

  /** Between the two states, `g` changed at most the stores in `w`. */
  twostate predicate WritesOnly(g: World, w: set<Store>)
    reads g
  {
    && (Variables !in w ==> g.variables == old(g.variables))
    && (Switches !in w ==> g.switches == old(g.switches))
    && (MessageStore !in w ==> g.message == old(g.message))
    && (TempStore !in w ==> g.temp == old(g.temp))
    && (Gold !in w ==> g.gold == old(g.gold))
    && (Items !in w ==> g.items == old(g.items))
    && (Members !in w ==> g.members == old(g.members))
    && (Actors !in w ==> g.actors == old(g.actors))
    && (RefreshStore !in w ==> g.refresh == old(g.refresh))
    && g.mapId == old(g.mapId) && g.queries == old(g.queries)
    && g.boarding == old(g.boarding) && g.teleporting == old(g.teleporting)
    && g.anyTriggered == old(g.anyTriggered) && g.rpg2k == old(g.rpg2k)
  }
}
