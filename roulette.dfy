/**
  The roulette draw: the bounded random index and the choice of the winning
  segment, which never repeats the previous winner. The wheel's angles are
  not modelled; only the index.
*/
module Roulette {
  import opened Wrappers
  import opened ListOps
  import opened Numeric

  /** One value of `crypto.getRandomValues(new Uint32Array(1))`. */
  predicate IsUint32(draw: nat)
  {
    draw < 0x1_0000_0000
  }

  /** `getRandomIndex(max)` with a 32-bit random draw: `0` when `max <= 1`,
      else the draw reduced into `[0, max)`. */
  function RandomIndex(max: int, draw: nat): (r: nat)
    requires IsUint32(draw)
    ensures max <= 1 ==> r == 0
    ensures max > 1 ==> r < max
  {
    if max <= 1 then 0 else draw % max
  }

  /** Every index below `max` is reached by some draw. */
  lemma RandomIndexCovers(max: int, target: nat)
    requires 1 < max <= 0x1_0000_0000 && target < max
    ensures RandomIndex(max, target) == target
  {
    DivModUnique(target, max, 0, target);
  }

  /** The winning segment: the random index, moved one place on (wrapping)
      when it equals the previous winner. */
  function TargetIndex(n: nat, draw: nat, last: Option<nat>): (t: nat)
    requires n >= 2 && IsUint32(draw)
    ensures t < n
    ensures last != Some(t)
  {
    var t := RandomIndex(n, draw);
    if last == Some(t) then (t + 1) % n else t
  }

  /** Every segment other than the previous winner can win. */
  lemma TargetIndexCovers(n: nat, last: Option<nat>, target: nat)
    requires 2 <= n <= 0x1_0000_0000 && target < n && last != Some(target)
    ensures TargetIndex(n, target, last) == target
  {
    DivModUnique(target, n, 0, target);
  }

  datatype SpinOutcome =
    | Busy                              // a spin is still running: ignored
    | TooFewOptions                     // fewer than two options: an alert
    | Spinning(index: nat, option: string)

  class Wheel {
    /** `state.rouletteLastIndex`. */
    var lastIndex: Option<nat>
    /** `state.rouletteSpinning`. */
    var spinning: bool
    /** The option the pending timeout will show. */
    var pending: string

    constructor ()
      ensures lastIndex == None && !spinning && pending == ""
    {
      lastIndex := None;
      spinning := false;
      pending := "";
    }

    /** `spinRoulette()`: ignored while spinning; rejects fewer than two
        options without a change; otherwise picks a winner different from the
        previous one, remembers it and starts spinning. */
    method Spin(optionsText: string, draw: nat) returns (out: SpinOutcome)
      requires IsUint32(draw)
      modifies this
      ensures old(spinning) ==> out == Busy
      ensures !old(spinning) && |ParseList(optionsText)| < 2 ==> out == TooFewOptions
      ensures out.Spinning? <==> !old(spinning) && |ParseList(optionsText)| >= 2
      ensures out.Busy? || out.TooFewOptions? ==>
        lastIndex == old(lastIndex) && spinning == old(spinning) && pending == old(pending)
      ensures out.Spinning? ==>
        var options := ParseList(optionsText);
        !old(spinning) && |options| >= 2
        && out.index == TargetIndex(|options|, draw, old(lastIndex))
        && out.index < |options| && old(lastIndex) != Some(out.index)
        && out.option == options[out.index]
        && lastIndex == Some(out.index) && spinning && pending == out.option
    {
      if spinning {
        return Busy;
      }
      var options := ParseList(optionsText);
      if |options| < 2 {
        return TooFewOptions;
      }
      var index := TargetIndex(|options|, draw, lastIndex);
      lastIndex := Some(index);
      spinning := true;
      pending := options[index];
      out := Spinning(index, pending);
    }

    /** The spin's timeout: shows the pending option and stops spinning. */
    method Settle() returns (shown: Option<string>)
      modifies this
      ensures shown == if old(spinning) then Some(old(pending)) else None
      ensures !spinning && lastIndex == old(lastIndex) && pending == old(pending)
    {
      shown := if spinning then Some(pending) else None;
      spinning := false;
    }
  }
}
