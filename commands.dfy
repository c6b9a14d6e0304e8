// The integer logic of the interpreter's commands, as functions over the
// shared stores: operand selection, the clamped variable writes, switch
// writes, and the per-actor HP/SP/condition/heal effects.  The
// interpreter's methods are proved against these.

module Commands {
  import opened GameState

  // ---------------------------------------------------------------------
  // C++ integer division and remainder (truncating toward zero)

  function Abs(x: int): nat { if x < 0 then -x else x }

  /** `a / b` on C++ int: the quotient is rounded toward zero, so it is
      never larger than the dividend and is negative only when the signs
      differ. */
  function CDiv(a: int, b: int): (r: int)
    requires b != 0
    ensures Abs(r) <= Abs(a)
    ensures r < 0 ==> (a < 0) != (b < 0)
    ensures r > 0 ==> (a < 0) == (b < 0)
  {
    QuotientBound(Abs(a), Abs(b));
    if (a < 0) == (b < 0) then Abs(a) / Abs(b) else -(Abs(a) / Abs(b))
  }

  /** `a % b` on C++ int: the remainder is smaller than the divisor and
      takes the sign of the dividend. */
  function CMod(a: int, b: int): (r: int)
    requires b != 0
    ensures Abs(r) < Abs(b)
    ensures r == 0 || (r < 0) == (a < 0)
  {
    if a < 0 then -(Abs(a) % Abs(b)) else Abs(a) % Abs(b)
  }

  /** C++ division and remainder recompose the dividend. */
  lemma Truncation(a: int, b: int)
    requires b != 0
    ensures a == CDiv(a, b) * b + CMod(a, b)
  {
    var aa: int, bb: int := Abs(a), Abs(b);
    var q: int, r: int := aa / bb, aa % bb;
    var m := q * bb;
    assert aa == m + r;
    MulSigns(q, bb, m);
    if a >= 0 && b > 0 {
      assert CDiv(a, b) * b == m;
    } else if a >= 0 {
      assert CDiv(a, b) == -q && b == -bb;
      assert CDiv(a, b) * b == m;
    } else if b > 0 {
      assert CDiv(a, b) == -q && b == bb;
      assert CDiv(a, b) * b == -m;
    } else {
      assert CDiv(a, b) == q && b == -bb;
      assert CDiv(a, b) * b == -m;
    }
  }

  /** The remainder is smaller than the divisor and has the dividend's sign;
      the quotient is no larger than the dividend. */
  lemma TruncationBounds(a: int, b: int)
    requires b != 0
    ensures Abs(CMod(a, b)) < Abs(b)
    ensures CMod(a, b) == 0 || ((CMod(a, b) < 0) == (a < 0))
    ensures Abs(CDiv(a, b)) <= Abs(a)
  {
    var aa: int, bb: int := Abs(a), Abs(b);
    var q: int := aa / bb;
    assert aa == q * bb + aa % bb;
    MulBound(q, bb);
  }

  lemma QuotientBound(x: nat, y: nat)
    requires y >= 1
    ensures x / y <= x
  {
    var q := x / y;
    assert x == q * y + x % y;
    MulBound(q, y);
  }

  lemma MulBound(q: int, b: int)
    requires q >= 0 && b >= 1
    ensures q <= q * b
  {
  }

  lemma MulSigns(q: int, b: int, m: int)
    requires m == q * b
    ensures (-q) * b == -m && q * (-b) == -m && (-q) * (-b) == m
  {
  }

  // ---------------------------------------------------------------------
  // ControlVariables: the operation applied to each target

  /** `Game_Variables[i] op= value` for operation selector `op`; `rangeMode`
      tells the range form, whose modulo by zero stores 0, from the
      variable-indirect form, whose modulo by zero leaves the value. */
  function Operate(cur: int, op: int, value: int, rangeMode: bool): (r: int)
    ensures op == 0 ==> r == value
    ensures op == 4 ==> Abs(r) <= Abs(cur)
    ensures op == 5 && value != 0 ==> Abs(r) < Abs(value) && (r == 0 || (r < 0) == (cur < 0))
    ensures op == 5 && value == 0 ==> r == if rangeMode then 0 else cur
    ensures (op < 0 || op > 5) ==> r == cur
  {
    if op == 0 then value
    else if op == 1 then cur + value
    else if op == 2 then cur - value
    else if op == 3 then cur * value
    else if op == 4 then (if value != 0 then CDiv(cur, value) else cur)
    else if op == 5 then (if value != 0 then CMod(cur, value) else if rangeMode then 0 else cur)
    else cur
  }

  /** One target written and clamped to [MinSize, MaxSize]. */
  function WriteOne(vars: map<int, int>, id: int, op: int, value: int, rangeMode: bool): (r: map<int, int>)
    ensures MinSize <= Var(r, id) <= MaxSize
    ensures forall k :: k != id ==> Var(r, k) == Var(vars, k)
  {
    vars[id := Clamp(Operate(Var(vars, id), op, value, rangeMode), MinSize, MaxSize)]
  }

  /** The range loop `for (i = lo; i <= hi; i++)` of ControlVariables. */
  function WriteRange(vars: map<int, int>, i: int, hi: int, op: int, value: int): (r: map<int, int>)
    ensures forall k :: k < i || hi < k ==> Var(r, k) == Var(vars, k)
    ensures forall k :: i <= k <= hi ==> MinSize <= Var(r, k) <= MaxSize
    decreases hi - i
  {
    if i > hi then vars else WriteRange(WriteOne(vars, i, op, value, true), i + 1, hi, op, value)
  }

  /** The range loop writes each id in [lo, hi] from its own old value and
      leaves every other id alone. */
  lemma {:induction false} WriteRangeEffect(vars: map<int, int>, lo: int, hi: int, op: int, value: int, k: int)
    ensures Var(WriteRange(vars, lo, hi, op, value), k)
         == if lo <= k <= hi then Clamp(Operate(Var(vars, k), op, value, true), MinSize, MaxSize)
            else Var(vars, k)
    decreases hi - lo
  {
    if lo <= hi {
      WriteRangeEffect(WriteOne(vars, lo, op, value, true), lo + 1, hi, op, value, k);
    }
  }

  /** After a range write every written variable lies in [MinSize, MaxSize]. */
  lemma RangeWriteClamped(vars: map<int, int>, lo: int, hi: int, op: int, value: int, k: int)
    requires lo <= k <= hi
    ensures MinSize <= Var(WriteRange(vars, lo, hi, op, value), k) <= MaxSize
  {
    WriteRangeEffect(vars, lo, hi, op, value, k);
  }

  /** Division by zero leaves the target as it was (clamped); modulo by zero
      stores 0 in range mode and leaves the target in indirect mode. */
  lemma ZeroDivisor(cur: int, rangeMode: bool)
    requires MinSize <= cur <= MaxSize
    ensures Clamp(Operate(cur, 4, 0, rangeMode), MinSize, MaxSize) == cur
    ensures Clamp(Operate(cur, 5, 0, true), MinSize, MaxSize) == 0
    ensures Clamp(Operate(cur, 5, 0, false), MinSize, MaxSize) == cur
  {
  }

  /** The variable-indirect write changes exactly `Variables[p1]`. */
  lemma IndirectEffect(vars: map<int, int>, p1: int, op: int, value: int, k: int)
    ensures Var(WriteOne(vars, Var(vars, p1), op, value, false), k)
         == if k == Var(vars, p1) then Clamp(Operate(Var(vars, k), op, value, false), MinSize, MaxSize)
            else Var(vars, k)
  {
  }

  // ---------------------------------------------------------------------
  // ControlVariables: the operand

  /** `rand() % (a - b + 1) + b`, with a = max(p5, p6), b = min(p5, p6). */
  function RandomIn(rnd: nat, p5: int, p6: int): (r: int)
    ensures (if p5 < p6 then p5 else p6) <= r <= (if p5 < p6 then p6 else p5)
  {
    var a := if p5 > p6 then p5 else p6;
    var b := if p5 < p6 then p5 else p6;
    rnd % (a - b + 1) + b
  }

  /** The character-orientation mapping 0, 1, 2, other -> 8, 6, 2, 4. */
  function Orientation(dir: int): (r: int)
    ensures r == 2 || r == 4 || r == 6 || r == 8
    ensures (dir < 0 || dir > 2) ==> r == 4
  {
    if dir == 0 then 8 else if dir == 1 then 6 else if dir == 2 then 2 else 4
  }

  function Query(queries: map<(int, int, int), int>, kind: int, a: int, b: int): int
  {
    if (kind, a, b) in queries then queries[(kind, a, b)] else 0
  }

  /** The operand of ControlVariables, selected by p4 (with p5, p6);
      `rnd` is the value rand() returns. */
  function Operand(vars: map<int, int>, items: map<int, int>, gold: int, members: seq<int>,
                   actors: map<int, Actor>, queries: map<(int, int, int), int>,
                   p4: int, p5: int, p6: int, rnd: nat): (r: int)
    ensures p4 == 0 ==> r == p5
    ensures p4 == 3 ==> (if p5 < p6 then p5 else p6) <= r <= (if p5 < p6 then p6 else p5)
    ensures p4 == 5 && p5 !in actors ==> r == 0
    ensures p4 == 7 && p5 == 2 ==> r == |members|
    ensures (p4 < 0 || p4 > 7) ==> r == 0
  {
    if p4 == 0 then p5
    else if p4 == 1 then Var(vars, p5)
    else if p4 == 2 then Var(vars, Var(vars, p5))
    else if p4 == 3 then RandomIn(rnd, p5, p6)
    else if p4 == 4 then
      (if p6 == 0 then Var(items, p5) else if p6 == 1 then Query(queries, 4, p5, 1) else 0)
    else if p4 == 5 then
      (if p5 !in actors then 0
       else if p6 == 2 then actors[p5].hp
       else if p6 == 3 then actors[p5].sp
       else if p6 == 4 then actors[p5].maxHp
       else if p6 == 5 then actors[p5].maxSp
       else if 0 <= p6 <= 14 then Query(queries, 5, p5, p6)
       else 0)
    else if p4 == 6 then
      (if (6, p5, p6) !in queries || !(0 <= p6 <= 5) then 0
       else if p6 == 3 then Orientation(queries[(6, p5, p6)])
       else queries[(6, p5, p6)])
    else if p4 == 7 then
      (if p5 == 0 then gold
       else if p5 == 2 then |members|
       else if 0 <= p5 <= 9 then Query(queries, 7, p5, 0)
       else 0)
    else 0
  }

  /** The operand does not depend on `rnd` except for the random selector. */
  lemma OperandDeterministic(vars: map<int, int>, items: map<int, int>, gold: int, members: seq<int>,
                             actors: map<int, Actor>, queries: map<(int, int, int), int>,
                             p4: int, p5: int, p6: int, r1: nat, r2: nat)
    requires p4 != 3
    ensures Operand(vars, items, gold, members, actors, queries, p4, p5, p6, r1)
         == Operand(vars, items, gold, members, actors, queries, p4, p5, p6, r2)
  {
  }

  // ---------------------------------------------------------------------
  // ControlSwitches

  /** One switch set to `mode == 0`, or toggled when mode is 2. */
  function SetSwitch(sw: map<int, bool>, id: int, mode: int): (r: map<int, bool>)
    ensures Switch(r, id) == if mode == 2 then !Switch(sw, id) else mode == 0
    ensures forall k :: k != id ==> Switch(r, k) == Switch(sw, k)
  {
    sw[id := if mode != 2 then mode == 0 else !Switch(sw, id)]
  }

  /** The range loop of ControlSwitches. */
  function SwitchRange(sw: map<int, bool>, i: int, hi: int, mode: int): (r: map<int, bool>)
    ensures forall k :: k < i || hi < k ==> Switch(r, k) == Switch(sw, k)
    decreases hi - i
  {
    if i > hi then sw else SwitchRange(SetSwitch(sw, i, mode), i + 1, hi, mode)
  }

  lemma {:induction false} SwitchRangeEffect(sw: map<int, bool>, lo: int, hi: int, mode: int, k: int)
    ensures Switch(SwitchRange(sw, lo, hi, mode), k)
         == if lo <= k <= hi then (if mode == 2 then !Switch(sw, k) else mode == 0)
            else Switch(sw, k)
    decreases hi - lo
  {
    if lo <= hi {
      SwitchRangeEffect(SetSwitch(sw, lo, mode), lo + 1, hi, mode, k);
    }
  }

  // ---------------------------------------------------------------------
  // Operand helpers of the party commands

  /** OperateValue: a constant or a variable, negated for operation 1. */
  function OperateValue(vars: map<int, int>, operation: int, operandType: int, operand: int): (r: int)
    ensures operandType == 0 ==> r == (if operation == 1 then -operand else operand)
    ensures operandType != 0 ==> r == (if operation == 1 then -Var(vars, operand) else Var(vars, operand))
  {
    var value := if operandType == 0 then operand else Var(vars, operand);
    if operation == 1 then -value else value
  }

  /** Subtraction is addition of the negated operand. */
  lemma OperateValueSign(vars: map<int, int>, operation: int, operandType: int, operand: int)
    ensures OperateValue(vars, 1, operandType, operand) == -OperateValue(vars, 0, operandType, operand)
    ensures operation != 1 ==> OperateValue(vars, operation, operandType, operand) == OperateValue(vars, 0, operandType, operand)
  {
  }

  /** ValueOrVariable: a constant for mode 0, a variable for mode 1, -1 otherwise. */
  function ValueOrVariable(vars: map<int, int>, mode: int, val: int): (r: int)
    ensures mode == 0 ==> r == val
    ensures mode == 1 ==> r == Var(vars, val)
    ensures mode != 0 && mode != 1 ==> r == -1
  {
    if mode == 0 then val else if mode == 1 then Var(vars, val) else -1
  }

  /** GetActors: the party (mode 0), one actor by id (mode 1) or by the id
      held in a variable (mode 2); unknown actors and modes give none. */
  function GetActors(vars: map<int, int>, members: seq<int>, actors: map<int, Actor>, mode: int, id: int): (r: seq<int>)
    ensures mode == 0 ==> r == members
    ensures mode == 1 ==> r == (if id in actors then [id] else [])
    ensures mode == 2 ==> r == (if Var(vars, id) in actors then [Var(vars, id)] else [])
    ensures mode != 0 && mode != 1 && mode != 2 ==> r == []
  {
    if mode == 0 then members
    else if mode == 1 then (if id in actors then [id] else [])
    else if mode == 2 then (if Var(vars, id) in actors then [Var(vars, id)] else [])
    else []
  }

  lemma GetActorsKnown(vars: map<int, int>, members: seq<int>, actors: map<int, Actor>, mode: int, id: int, k: nat)
    requires PartyOk(members, actors) && k < |GetActors(vars, members, actors, mode, id)|
    ensures GetActors(vars, members, actors, mode, id)[k] in actors
  {
  }

  /** Every actor a command targets is known. */
  lemma GetActorsAllKnown(vars: map<int, int>, members: seq<int>, actors: map<int, Actor>, mode: int, id: int)
    requires PartyOk(members, actors)
    ensures AllKnown(GetActors(vars, members, actors, mode, id), actors)
  {
  }

  // ---------------------------------------------------------------------
  // Party-wide effects

  predicate AllKnown(ids: seq<int>, actors: map<int, Actor>)
  {
    forall k :: 0 <= k < |ids| ==> ids[k] in actors
  }


  predicate ActorsOk(actors: map<int, Actor>)
  {
    forall id :: id in actors ==> ActorOk(actors[id])
  }

  /** Replacing the first actor of a walk by a valid one keeps the rest of
      the walk known. */
  lemma Step(actors: map<int, Actor>, ids: seq<int>, a: Actor)
    requires ids != [] && AllKnown(ids, actors) && ActorsOk(actors) && ActorOk(a)
    ensures AllKnown(ids[1..], actors[ids[0] := a]) && ActorsOk(actors[ids[0] := a])
    ensures actors[ids[0] := a].Keys == actors.Keys
  {
  }

  /** CheckGameOver: with no active member, game over is set to whether
      the party has anyone; otherwise it is left alone. */
  predicate AnyActive(members: seq<int>, actors: map<int, Actor>)
    requires AllKnown(members, actors)
  {
    exists k :: 0 <= k < |members| && Active(actors[members[k]])
  }

  function CheckGameOver(members: seq<int>, actors: map<int, Actor>, gameover: bool): (r: bool)
    requires AllKnown(members, actors)
    ensures r != gameover ==> !AnyActive(members, actors)
    ensures !AnyActive(members, actors) ==> r == (|members| > 0)
  {
    if !AnyActive(members, actors) then |members| > 0 else gameover
  }

  /** The per-actor effect of a command loop over actors. */
  datatype Effect =
    | HpEffect(amount: int, lethal: bool)    // ChangeHP, per actor
    | SpEffect(amount: int)                  // ChangeSP
    | HealEffect                             // FullHeal

  function Apply(e: Effect, a: Actor): (r: Actor)
    requires ActorOk(a)
    ensures ActorOk(r)
  {
    match e
    case HpEffect(amount, lethal) =>
      if !lethal && a.hp + amount <= 0 then ChangeHp(a, a.hp * -1 + 1) else ChangeHp(a, amount)
    case SpEffect(amount) =>
      SetSp(a, if a.sp + amount < 0 then 0 else a.sp + amount)
    case HealEffect =>
      SetSp(ChangeHp(a, a.maxHp), a.maxSp).(states := {})
  }

  /** Each effect stated outright: HP moves by the amount within [0, max HP],
      or within [1, max HP] when not lethal; SP becomes `max(sp + amount, 0)`
      within max SP; a full heal restores both and clears all states. */
  lemma ApplyExact(e: Effect, a: Actor)
    requires ActorOk(a)
    ensures e.HpEffect? && e.lethal ==> Apply(e, a) == a.(hp := Clamp(a.hp + e.amount, 0, a.maxHp))
    ensures e.HpEffect? && !e.lethal ==> Apply(e, a) == a.(hp := Clamp(a.hp + e.amount, 1, a.maxHp))
    ensures e.SpEffect? ==> Apply(e, a) == a.(sp := Clamp(a.sp + e.amount, 0, a.maxSp))
    ensures e.HealEffect? ==> Apply(e, a) == a.(hp := a.maxHp, sp := a.maxSp, states := {})
  {
  }

  /** The loop `for (actor : GetActors(...))` applying `e` to each actor. */
  function ApplyAll(actors: map<int, Actor>, ids: seq<int>, e: Effect): (r: map<int, Actor>)
    requires AllKnown(ids, actors) && ActorsOk(actors)
    ensures r.Keys == actors.Keys && ActorsOk(r)
    decreases |ids|
  {
    if ids == [] then actors
    else
      var first := ids[0];
      assert first in actors;
      assert ActorOk(actors[first]);
      var a := Apply(e, actors[ids[0]]);
      Step(actors, ids, a);
      ApplyAll(actors[ids[0] := a], ids[1..], e)
  }

  predicate Distinct(ids: seq<int>)
  {
    forall i, j :: 0 <= i < j < |ids| ==> ids[i] != ids[j]
  }

  /** Over distinct ids, each listed actor receives the effect once and
      every other actor is left alone. */
  lemma {:induction false} ApplyAllEffect(actors: map<int, Actor>, ids: seq<int>, e: Effect, id: int)
    requires AllKnown(ids, actors) && ActorsOk(actors) && Distinct(ids) && id in actors
    ensures ApplyAll(actors, ids, e)[id] == if id in ids then Apply(e, actors[id]) else actors[id]
    decreases |ids|
  {
    if ids != [] {
      var first := ids[0];
      assert first in actors;
      assert ActorOk(actors[first]);
      var a := Apply(e, actors[ids[0]]);
      Step(actors, ids, a);
      assert Distinct(ids[1..]);
      ApplyAllEffect(actors[ids[0] := a], ids[1..], e, id);
      if id == ids[0] {
        assert id !in ids[1..];
      } else {
        assert (id in ids) == (id in ids[1..]);
      }
    }
  }

  /** Non-lethal HP changes keep an actor that has 1 HP or more there. */
  lemma {:induction false} KeepsFloor(actors: map<int, Actor>, ids: seq<int>, amount: int, id: int)
    requires AllKnown(ids, actors) && ActorsOk(actors) && id in actors && actors[id].hp >= 1
    ensures ApplyAll(actors, ids, HpEffect(amount, false))[id].hp >= 1
    decreases |ids|
  {
    if ids != [] {
      var first := ids[0];
      assert first in actors;
      assert ActorOk(actors[first]);
      var a := Apply(HpEffect(amount, false), actors[ids[0]]);
      Step(actors, ids, a);
      KeepsFloor(actors[ids[0] := a], ids[1..], amount, id);
    }
  }

  /** ChangeHP with lethal off leaves every targeted actor at 1 HP or more. */
  lemma {:induction false} NonLethalFloor(actors: map<int, Actor>, ids: seq<int>, amount: int, k: nat)
    requires AllKnown(ids, actors) && ActorsOk(actors) && k < |ids|
    ensures ApplyAll(actors, ids, HpEffect(amount, false))[ids[k]].hp >= 1
    decreases |ids|
  {
    var first := ids[0];
    assert first in actors;
    assert ActorOk(actors[first]);
    var a := Apply(HpEffect(amount, false), actors[ids[0]]);
    Step(actors, ids, a);
    if k == 0 {
      KeepsFloor(actors[ids[0] := a], ids[1..], amount, ids[0]);
    } else {
      NonLethalFloor(actors[ids[0] := a], ids[1..], amount, k - 1);
    }
  }

  /** ChangeHP's loop as written: the amount adjusted for one actor is
      carried into the actors after it. */
  function ApplyHpCarry(actors: map<int, Actor>, ids: seq<int>, amount: int, lethal: bool): (r: map<int, Actor>)
    requires AllKnown(ids, actors) && ActorsOk(actors)
    ensures r.Keys == actors.Keys && ActorsOk(r)
    decreases |ids|
  {
    if ids == [] then actors
    else
      var first := ids[0];
      assert first in actors;
      assert ActorOk(actors[first]);
      var a := actors[ids[0]];
      var amount' := if !lethal && a.hp + amount <= 0 then amount + (a.hp + amount) * -1 + 1 else amount;
      Step(actors, ids, ChangeHp(a, amount'));
      ApplyHpCarry(actors[ids[0] := ChangeHp(a, amount')], ids[1..], amount', lethal)
  }

  /** Two party members with 5 and 100 HP lose 20 HP, lethal off: as written
      the second ends at 96; applied per actor it ends at 80. */
  lemma HpCarryDiverges()
    ensures var actors := map[1 := Actor(5, 200, 0, 0, {}), 2 := Actor(100, 200, 0, 0, {})];
            ApplyHpCarry(actors, [1, 2], -20, false)[2].hp == 96
            && ApplyAll(actors, [1, 2], HpEffect(-20, false))[2].hp == 80
  {
    var actors := map[1 := Actor(5, 200, 0, 0, {}), 2 := Actor(100, 200, 0, 0, {})];
    var step1 := actors[1 := Actor(1, 200, 0, 0, {})];
    assert [1, 2][1..] == [2];
    assert ApplyHpCarry(actors, [1, 2], -20, false) == ApplyHpCarry(step1, [2], -4, false);
    assert ApplyAll(actors, [1, 2], HpEffect(-20, false)) == ApplyAll(step1, [2], HpEffect(-20, false));
  }

  /** As written, lethal off still keeps an actor with 1 HP or more there,
      whatever amount has been carried to it. */
  lemma {:induction false} CarryKeepsFloor(actors: map<int, Actor>, ids: seq<int>, amount: int, id: int)
    requires AllKnown(ids, actors) && ActorsOk(actors) && id in actors && actors[id].hp >= 1
    ensures ApplyHpCarry(actors, ids, amount, false)[id].hp >= 1
    decreases |ids|
  {
    if ids != [] {
      var first := ids[0];
      assert first in actors;
      assert ActorOk(actors[first]);
      var a := actors[ids[0]];
      var amount' := if a.hp + amount <= 0 then amount + (a.hp + amount) * -1 + 1 else amount;
      Step(actors, ids, ChangeHp(a, amount'));
      CarryKeepsFloor(actors[ids[0] := ChangeHp(a, amount')], ids[1..], amount', id);
    }
  }

  /** As written, ChangeHP with lethal off leaves every targeted actor at
      1 HP or more: the carried adjustment changes how much the later ones
      lose, not this floor. */
  lemma {:induction false} CarryFloor(actors: map<int, Actor>, ids: seq<int>, amount: int, k: nat)
    requires AllKnown(ids, actors) && ActorsOk(actors) && k < |ids|
    ensures ApplyHpCarry(actors, ids, amount, false)[ids[k]].hp >= 1
    decreases |ids|
  {
    var first := ids[0];
    assert first in actors;
    assert ActorOk(actors[first]);
    var a := actors[ids[0]];
    var amount' := if a.hp + amount <= 0 then amount + (a.hp + amount) * -1 + 1 else amount;
    Step(actors, ids, ChangeHp(a, amount'));
    if k == 0 {
      CarryKeepsFloor(actors[ids[0] := ChangeHp(a, amount')], ids[1..], amount', ids[0]);
    } else {
      CarryFloor(actors[ids[0] := ChangeHp(a, amount')], ids[1..], amount', k - 1);
    }
  }

  /** With lethal on nothing is carried: the loop as written is the
      per-actor application. */
  lemma {:induction false} CarryLethal(actors: map<int, Actor>, ids: seq<int>, amount: int)
    requires AllKnown(ids, actors) && ActorsOk(actors)
    ensures ApplyHpCarry(actors, ids, amount, true) == ApplyAll(actors, ids, HpEffect(amount, true))
    decreases |ids|
  {
    if ids != [] {
      var first := ids[0];
      assert first in actors;
      assert ActorOk(actors[first]);
      var a := actors[ids[0]];
      Step(actors, ids, ChangeHp(a, amount));
      CarryLethal(actors[ids[0] := ChangeHp(a, amount)], ids[1..], amount);
    }
  }

  /** One actor's condition change: add or remove `stateId`; adding state 1
      first takes the actor's HP to 0. */
  function Condition(a: Actor, remove: bool, stateId: int): (r: Actor)
    requires ActorOk(a)
    ensures ActorOk(r)
  {
    if remove then a.(states := a.states - {stateId})
    else
      var a' := if stateId == 1 then ChangeHp(a, -a.hp) else a;
      a'.(states := a'.states + {stateId})
  }

  /** ChangeCondition's loop; every addition is followed by CheckGameOver. */
  function ConditionAll(actors: map<int, Actor>, members: seq<int>, gameover: bool,
                        ids: seq<int>, remove: bool, stateId: int): (r: (map<int, Actor>, bool))
    requires AllKnown(ids, actors) && AllKnown(members, actors) && ActorsOk(actors)
    ensures r.0.Keys == actors.Keys && ActorsOk(r.0)
    ensures remove ==> r.1 == gameover
    decreases |ids|
  {
    if ids == [] then (actors, gameover)
    else
      var first := ids[0];
      assert first in actors;
      assert ActorOk(actors[first]);
      var next := actors[ids[0] := Condition(actors[ids[0]], remove, stateId)];
      Step(actors, ids, next[ids[0]]);
      ConditionAll(next, members, if remove then gameover else CheckGameOver(members, next, gameover),
                   ids[1..], remove, stateId)
  }

  /** Inflicting state 1 on the whole party sets game over when the party
      has anyone in it. */
  lemma PartyDeathIsGameOver(actors: map<int, Actor>, members: seq<int>, gameover: bool)
    requires AllKnown(members, actors) && ActorsOk(actors) && |members| > 0
    ensures ConditionAll(actors, members, gameover, members, false, 1).1
  {
    DeathWalk(actors, members, gameover, 0);
  }

  /** The walk behind PartyDeathIsGameOver: members before `done` are at
      0 HP, and the last addition finds nobody active. */
  lemma {:induction false} DeathWalk(actors: map<int, Actor>, members: seq<int>, gameover: bool, done: nat)
    requires AllKnown(members, actors) && ActorsOk(actors) && done < |members|
    requires forall k :: 0 <= k < done ==> actors[members[k]].hp == 0
    ensures ConditionAll(actors, members, gameover, members[done..], false, 1).1
    decreases |members| - done
  {
    var ids := members[done..];
    assert AllKnown(ids, actors);
    var first := ids[0];
    assert first in actors;
    assert ActorOk(actors[first]);
    var next := actors[ids[0] := Condition(actors[ids[0]], false, 1)];
    Step(actors, ids, next[ids[0]]);
    assert forall k :: 0 <= k <= done ==> next[members[k]].hp == 0;
    assert AllKnown(members, next);
    var g := CheckGameOver(members, next, gameover);
    if done + 1 == |members| {
      assert !AnyActive(members, next);
      assert ids[1..] == [];
    } else {
      assert ids[1..] == members[done + 1..];
      DeathWalk(next, members, g, done + 1);
    }
  }

  // ---------------------------------------------------------------------
  // Party membership and inventory facades

  /** Game_Party::RemoveActor: drops every occurrence of `id`. */
  function Without(members: seq<int>, id: int): (r: seq<int>)
    ensures forall x :: x in r <==> x in members && x != id
    ensures |r| <= |members|
  {
    if members == [] then []
    else if members[0] == id then Without(members[1..], id)
    else [members[0]] + Without(members[1..], id)
  }

  /** Game_Party::AddActor: appends `id` unless it is a member already. */
  function With(members: seq<int>, id: int): (r: seq<int>)
    ensures forall x :: x in r <==> x in members || x == id
  {
    if id in members then members else members + [id]
  }

  /** ChangeItems refuses to add through the remove form or remove through
      the add form; otherwise the count moves by `value`. */
  function ItemsAfter(items: map<int, int>, remove: bool, id: int, value: int): (r: map<int, int>)
    ensures remove ==> Var(r, id) <= Var(items, id)
    ensures !remove ==> Var(r, id) >= Var(items, id)
    ensures forall k :: k != id ==> Var(r, k) == Var(items, k)
  {
    if (remove && value > 0) || (!remove && value < 0) then items
    else items[id := Var(items, id) + value]
  }
}
