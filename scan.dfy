// The structural scans over a command list: SkipTo's search for a
// command at an indentation level, the collection of a choice block's
// option strings, the count of a message's continuation lines, and the
// walk ContinuationChoices makes to the chosen branch.

module Scan {
  import opened EventCommands

  // ---------------------------------------------------------------------
  // SkipTo

  /** How SkipTo's loop ends: at a command indented less than the minimum,
      at a matching command, or at the end of the list. */
  datatype ScanResult = Below(at: nat) | Found(at: nat) | Exhausted

  /** A command SkipTo stops at: within the indentation bounds and with
      one of the two codes. */
  predicate Hit(c: EventCommand, code: int, code2: int, maxIndent: int)
  {
    c.indent <= maxIndent && (c.code == code || c.code == code2)
  }

  /** Every command in [from, to) is passed over: not below the minimum and
      not a hit. */
  predicate Passed(list: seq<EventCommand>, from: nat, to: int, code: int, code2: int, minIndent: int, maxIndent: int)
    requires to <= |list|
  {
    forall k :: from <= k < to ==> minIndent <= list[k].indent && !Hit(list[k], code, code2, maxIndent)
  }

  /** SkipTo's loop from position `from`. */
  function ScanFrom(list: seq<EventCommand>, from: nat, code: int, code2: int, minIndent: int, maxIndent: int): (r: ScanResult)
    ensures r.Below? ==> from <= r.at < |list| && list[r.at].indent < minIndent
                         && Passed(list, from, r.at, code, code2, minIndent, maxIndent)
    ensures r.Found? ==> from <= r.at < |list| && minIndent <= list[r.at].indent
                         && Hit(list[r.at], code, code2, maxIndent)
                         && Passed(list, from, r.at, code, code2, minIndent, maxIndent)
    ensures r.Exhausted? ==> Passed(list, from, |list|, code, code2, minIndent, maxIndent)
    decreases |list| - from
  {
    if from >= |list| then Exhausted
    else if list[from].indent < minIndent then Below(from)
    else if Hit(list[from], code, code2, maxIndent) then Found(from)
    else ScanFrom(list, from + 1, code, code2, minIndent, maxIndent)
  }

  /** The scan's outcome is unique: any position that satisfies the
      Found (or Below) description is the one the scan returns. */
  lemma {:induction false} ScanUnique(list: seq<EventCommand>, from: nat, code: int, code2: int, minIndent: int, maxIndent: int, p: nat)
    requires from <= p < |list| && Passed(list, from, p, code, code2, minIndent, maxIndent)
    ensures list[p].indent < minIndent ==> ScanFrom(list, from, code, code2, minIndent, maxIndent) == Below(p)
    ensures minIndent <= list[p].indent && Hit(list[p], code, code2, maxIndent)
            ==> ScanFrom(list, from, code, code2, minIndent, maxIndent) == Found(p)
    decreases p - from
  {
    if from < p {
      ScanUnique(list, from + 1, code, code2, minIndent, maxIndent, p);
    }
  }

  /** SkipTo's defaults: a negative second code is the first code, and a
      negative indentation bound is the current command's indentation. */
  function SkipBounds(list: seq<EventCommand>, index: int, code: int, code2: int, minIndent: int, maxIndent: int): (r: (int, int, int))
    requires (minIndent >= 0 && maxIndent >= 0) || 0 <= index < |list|
    ensures r.0 == if code2 < 0 then code else code2
    ensures minIndent >= 0 ==> r.1 == minIndent
    ensures maxIndent >= 0 ==> r.2 == maxIndent
    ensures minIndent < 0 ==> r.1 == list[index].indent
    ensures maxIndent < 0 ==> r.2 == list[index].indent
  {
    (if code2 < 0 then code else code2,
     if minIndent < 0 then list[index].indent else minIndent,
     if maxIndent < 0 then list[index].indent else maxIndent)
  }

  /** SkipTo's result and the cursor after it. */
  function SkipTarget(list: seq<EventCommand>, index: nat, code: int, code2: int,
                      minIndent: int, maxIndent: int, otherwiseEnd: bool): (r: (bool, nat))
    requires (minIndent >= 0 && maxIndent >= 0) || index < |list|
    ensures !r.0 ==> r.1 == index
    ensures r.1 == index || index <= r.1 < |list| || r.1 == |list|
  {
    var (c2, lo, hi) := SkipBounds(list, index, code, code2, minIndent, maxIndent);
    match ScanFrom(list, index, code, c2, lo, hi)
    case Below(_) => (false, index)
    case Found(at) => (true, at)
    case Exhausted => (true, if otherwiseEnd && index < |list| then |list| else index)
  }

  // ---------------------------------------------------------------------
  // GetChoices

  /** A choice block's end marker at `indent`. */
  predicate IsEnd(c: EventCommand, indent: int) { c.indent == indent && c.code == ShowChoiceEnd }

  /** An option of the choice block at `indent`. */
  predicate IsOption(c: EventCommand, indent: int) { c.indent == indent && c.code == ShowChoiceOption }

  /** The first end marker at `indent` from `k` on, or the list's length. */
  function EndAt(list: seq<EventCommand>, k: nat, indent: int): (e: nat)
    requires k <= |list|
    ensures k <= e <= |list|
    ensures e < |list| ==> IsEnd(list[e], indent)
    ensures forall p :: k <= p < e ==> !IsEnd(list[p], indent)
    decreases |list| - k
  {
    if k == |list| then k
    else if IsEnd(list[k], indent) then k
    else EndAt(list, k + 1, indent)
  }

  /** The positions GetChoices' loop collects from `k` on: exactly the
      options at `indent` before the first end marker, in increasing order. */
  function OptionPositions(list: seq<EventCommand>, k: nat, indent: int): (r: seq<nat>)
    requires k <= |list|
    ensures forall j :: 0 <= j < |r| ==> k <= r[j] < EndAt(list, k, indent) && IsOption(list[r[j]], indent)
    ensures forall i, j :: 0 <= i < j < |r| ==> r[i] < r[j]
    ensures forall p :: k <= p < EndAt(list, k, indent) && IsOption(list[p], indent) ==> p in r
    decreases |list| - k
  {
    if k == |list| then []
    else if IsEnd(list[k], indent) then []
    else if IsOption(list[k], indent) then [k] + OptionPositions(list, k + 1, indent)
    else OptionPositions(list, k + 1, indent)
  }

  function Strings(list: seq<EventCommand>, pos: seq<nat>): (r: seq<string>)
    requires forall j :: 0 <= j < |pos| ==> pos[j] < |list|
    ensures |r| == |pos| && forall j :: 0 <= j < |pos| ==> r[j] == list[pos[j]].str
  {
    seq(|pos|, j requires 0 <= j < |pos| => list[pos[j]].str)
  }

  /** The strings of the options from `k` on, in the order GetChoices'
      loop meets them. */
  function OptionStrings(list: seq<EventCommand>, k: nat, indent: int): (r: seq<string>)
    requires k <= |list|
    ensures |r| <= EndAt(list, k, indent) - k
    decreases |list| - k
  {
    if k == |list| || IsEnd(list[k], indent) then []
    else if IsOption(list[k], indent) then [list[k].str] + OptionStrings(list, k + 1, indent)
    else OptionStrings(list, k + 1, indent)
  }

  /** The collected strings are those of the option positions. */
  lemma {:induction false} OptionStringsAt(list: seq<EventCommand>, k: nat, indent: int)
    requires k <= |list|
    ensures OptionStrings(list, k, indent) == Strings(list, OptionPositions(list, k, indent))
    decreases |list| - k
  {
    if k < |list| && !IsEnd(list[k], indent) {
      OptionStringsAt(list, k + 1, indent);
      var rest := OptionPositions(list, k + 1, indent);
      if IsOption(list[k], indent) {
        assert Strings(list, [k] + rest) == [list[k].str] + Strings(list, rest);
      }
    }
  }

  /** A trailing empty option is the cancel branch: dropped when there is
      more than one option. */
  function DropCancel(c: seq<string>): (r: seq<string>)
    ensures |c| > 1 && c[|c| - 1] == "" ==> r == c[..|c| - 1]
    ensures !(|c| > 1 && c[|c| - 1] == "") ==> r == c
  {
    if |c| > 1 && c[|c| - 1] == "" then c[..|c| - 1] else c
  }

  /** GetChoices with the cursor at `index`: the option strings of the block
      at the indentation of `list[index + 1]`; the cancel branch is dropped
      only once the block's end marker is reached. No command after the
      cursor gives no choices (the source would read past the list). */
  function Choices(list: seq<EventCommand>, index: nat): (r: seq<string>)
    ensures index + 1 >= |list| ==> r == []
    ensures index + 1 < |list| ==> |r| <= EndAt(list, index + 1, list[index + 1].indent) - (index + 1)
  {
    if index + 1 >= |list| then []
    else
      var indent := list[index + 1].indent;
      var c := OptionStrings(list, index + 1, indent);
      if EndAt(list, index + 1, indent) < |list| then DropCancel(c) else c
  }

  /** The choices are the block's options in order; only the cancel branch
      can be missing: at most one is dropped, and only an empty string
      following another option in a block that has its end marker. */
  lemma ChoicesAreOptions(list: seq<EventCommand>, index: nat)
    requires index + 1 < |list|
    ensures var indent := list[index + 1].indent;
            var pos := OptionPositions(list, index + 1, indent);
            var c := Choices(list, index);
            |c| <= |pos| <= |c| + 1
            && (forall j :: 0 <= j < |c| ==> c[j] == list[pos[j]].str)
            && (|pos| == |c| + 1 ==> |pos| > 1 && list[pos[|pos| - 1]].str == ""
                                     && EndAt(list, index + 1, indent) < |list|)
  {
    OptionStringsAt(list, index + 1, list[index + 1].indent);
  }

  // ---------------------------------------------------------------------
  // ShowMessage

  /** The number of continuation-text commands directly after `from`. */
  function RunLength(list: seq<EventCommand>, from: nat): (n: nat)
    requires from < |list|
    ensures from + n < |list|
    ensures forall j :: from < j <= from + n ==> list[j].code == ShowMessage2
    ensures from + n + 1 < |list| ==> list[from + n + 1].code != ShowMessage2
    decreases |list| - from
  {
    if from + 1 < |list| && list[from + 1].code == ShowMessage2 then 1 + RunLength(list, from + 1) else 0
  }

  function Lines(list: seq<EventCommand>, from: nat, to: nat): (r: seq<string>)
    requires from <= to <= |list|
    ensures |r| == to - from && forall j :: 0 <= j < to - from ==> r[j] == list[from + j].str
  {
    seq(to - from, j requires 0 <= j < to - from => list[from + j].str)
  }

  /** A run of continuation lines that cannot be extended is the one
      RunLength counts. */
  lemma RunLengthUnique(list: seq<EventCommand>, from: nat, m: nat)
    requires from + m < |list|
    requires forall j :: from < j <= from + m ==> list[j].code == ShowMessage2
    requires from + m + 1 < |list| ==> list[from + m + 1].code != ShowMessage2
    ensures m == RunLength(list, from)
  {
  }

  /** Whether a choice block of `size` options is folded into a message of
      `lines` lines, as written: `size <= 4 - lines` in unsigned 32-bit
      arithmetic.  Up to four lines this is the window test; past four the
      difference wraps round to nearly 2^32 and any block passes. */
  function ChoicesFitAsWritten(lines: nat, size: nat): (r: bool)
    ensures lines <= 4 ==> (r <==> lines + size <= 4)
    ensures 4 < lines <= 0x1_0000_0004 ==> (r <==> size <= 0x1_0000_0004 - lines)
  {
    size <= (4 - lines) % 0x1_0000_0000
  }

  /** The intended test: the lines and the options share the window's four rows. */
  function ChoicesFit(lines: nat, size: nat): (r: bool)
    ensures r ==> size <= 4 && lines <= 4
    ensures r <==> size <= 4 - lines
  {
    lines + size <= 4
  }

  /** With at most four lines the two tests agree; a five-line message
      folds two options as written, overflowing the window. */
  lemma ChoicesFitFinding()
    ensures forall lines: nat, size: nat :: lines <= 4 ==> (ChoicesFitAsWritten(lines, size) <==> ChoicesFit(lines, size))
    ensures ChoicesFitAsWritten(5, 2) && !ChoicesFit(5, 2)
  {
  }

  // ---------------------------------------------------------------------
  // ContinuationChoices

  /** The walk of ContinuationChoices from cursor `i` over the options of
      the block at `indent`, looking for the branch numbered `result`:
      the success flag and the cursor it leaves. It stops, failing, where the
      source would read a parameter that is not there. */
  function ChoiceWalk(list: seq<EventCommand>, i: nat, indent: int, result: int): (r: (bool, nat))
    ensures r.1 >= i
    ensures r.0 ==> 1 <= r.1 <= |list| && |list[r.1 - 1].parameters| > 0
                    && list[r.1 - 1].parameters[0] == result
    decreases |list| - i
  {
    if i >= |list| then (false, i)
    else
      match ScanFrom(list, i, ShowChoiceOption, ShowChoiceEnd, indent, indent)
      case Below(_) => (false, i)
      case Found(j) => WalkAt(list, j, indent, result)
      case Exhausted => WalkAt(list, i, indent, result)
  }

  /** One turn of ContinuationChoices' loop from cursor `i`: SkipTo failing
      ends the walk, and otherwise the walk goes on where SkipTo stopped. */
  lemma WalkStep(list: seq<EventCommand>, i: nat, indent: int, result: int)
    requires i < |list| && indent >= 0
    ensures var t := SkipTarget(list, i, ShowChoiceOption, ShowChoiceEnd, indent, indent, false);
            && (!t.0 ==> ChoiceWalk(list, i, indent, result) == (false, i))
            && (t.0 ==> t.1 < |list| && ChoiceWalk(list, i, indent, result) == WalkAt(list, t.1, indent, result))
  {
  }

  /** One turn of the walk with the cursor at `j`: read the branch number. */
  function WalkAt(list: seq<EventCommand>, j: nat, indent: int, result: int): (r: (bool, nat))
    requires j < |list|
    ensures r.1 >= j
    ensures r.0 ==> 1 <= r.1 <= |list| && |list[r.1 - 1].parameters| > 0
                    && list[r.1 - 1].parameters[0] == result
    decreases |list| - j, 0
  {
    if |list[j].parameters| == 0 then (false, j)
    else if list[j].parameters[0] > result then (false, j + 1)
    else if list[j].parameters[0] < result then ChoiceWalk(list, j + 1, indent, result)
    else (true, j + 1)
  }
}
