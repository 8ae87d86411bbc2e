/** The replay window of internal/secure/session.go: the set it stands for, and the
    four-word bitmap that keeps the last 256 of it. */
module Replay {
  import opened Words

  const WINDOW := 256
  const WINDOW_WORDS := 4

  /** Every sequence ever accepted in one direction, and the highest of them. */
  datatype Seen = Seen(highest: nat, accepted: set<nat>) {

    ghost predicate Valid() {
      && (forall s <- accepted :: s <= highest)
      && (highest > 0 ==> highest in accepted)
    }

    /** The rule the bitmap implements. */
    predicate Fresh(s: nat) {
      s > highest || (highest - s < WINDOW && s !in accepted)
    }

    function Accept(s: nat): Seen {
      if s > highest then Seen(s, accepted + {s})
      else if Fresh(s) then Seen(highest, accepted + {s})
      else this
    }
  }

  const NOTHING_SEEN := Seen(0, {})

  /** Bit `d` of the 256, counted from the low bit of word 0. */
  predicate BitOf(window: seq<Word>, d: nat)
    requires |window| == WINDOW_WORDS && d < WINDOW
  {
    Bit(window[d / 64], d % 64)
  }

  /** The bitmap remembers exactly the accepted sequences less than 256 below the highest. */
  ghost predicate Represents(window: seq<Word>, seen: Seen)
    requires |window| == WINDOW_WORDS
  {
    forall d: nat :: d < WINDOW ==> (BitOf(window, d) <==> d <= seen.highest && seen.highest - d in seen.accepted)
  }

  /** One destination word of the shift: its own source word moved up, and what the word
      below pushes out at the top. */
  function ShiftedWord(window: seq<Word>, distance: nat, destination: nat): Word
    requires |window| == WINDOW_WORDS && distance < WINDOW && destination < WINDOW_WORDS
  {
    var source := destination - distance / 64;
    var bitShift := distance % 64;
    if source < 0 then 0
    else if bitShift > 0 && source > 0 then
      OrWord(OrWord(0, Shl(window[source], bitShift)), Shr(window[source - 1], 64 - bitShift))
    else OrWord(0, Shl(window[source], bitShift))
  }

  lemma BitShiftedWord(window: seq<Word>, distance: nat, destination: nat, i: nat)
    requires |window| == WINDOW_WORDS && distance < WINDOW && destination < WINDOW_WORDS && i < 64
    ensures var d := 64 * destination + i;
            Bit(ShiftedWord(window, distance, destination), i) <==> d >= distance && BitOf(window, d - distance)
  {
    var source := destination - distance / 64;
    var bitShift := distance % 64;
    IndexShifted(distance, destination, i);
    BitZero(i);
    if source >= 0 {
      BitMovedUp(window[source], bitShift, i);
      if bitShift > 0 && source > 0 {
        BitCarried(window[source], window[source - 1], bitShift, i);
      }
    }
  }

  /** Where a bit comes from, as word and bit. */
  lemma IndexShifted(distance: nat, destination: nat, i: nat)
    requires i < 64
    ensures var d, source, bitShift := 64 * destination + i, destination - distance / 64, distance % 64;
            && (d >= distance <==> source > 0 || (source == 0 && i >= bitShift))
            && (d >= distance && i >= bitShift ==> (d - distance) / 64 == source && (d - distance) % 64 == i - bitShift)
            && (d >= distance && i < bitShift ==> (d - distance) / 64 == source - 1 && (d - distance) % 64 == 64 - bitShift + i)
  {}

  lemma BitMovedUp(word: Word, bitShift: nat, i: nat)
    requires bitShift < 64 && i < 64
    ensures Bit(OrWord(0, Shl(word, bitShift)), i) <==> i >= bitShift && Bit(word, i - bitShift)
  {
    BitZero(i);
    BitOr(0, Shl(word, bitShift), i);
    BitShl(word, bitShift, i);
  }

  /** Two neighbouring words, shifted: high bits from the upper one, low bits from the lower. */
  lemma BitCarried(word: Word, below: Word, bitShift: nat, i: nat)
    requires 0 < bitShift < 64 && i < 64
    ensures Bit(OrWord(OrWord(0, Shl(word, bitShift)), Shr(below, 64 - bitShift)), i)
       <==> if i >= bitShift then Bit(word, i - bitShift) else Bit(below, 64 - bitShift + i)
  {
    BitMovedUp(word, bitShift, i);
    BitOr(OrWord(0, Shl(word, bitShift)), Shr(below, 64 - bitShift), i);
    BitShr(below, 64 - bitShift, i);
    if i >= bitShift {
      PowWord();
      BitHigh(below, 64, 64 - bitShift + i);
    }
  }

  /** `shiftReplayWindow` is the exact 256-bit left shift, whatever the distance. */
  method ShiftReplayWindow(window: array<Word>, distance: nat)
    requires window.Length == WINDOW_WORDS
    modifies window
    ensures forall d: nat :: d < WINDOW ==>
              (BitOf(window[..], d) <==> d >= distance && BitOf(old(window[..]), d - distance))
  {
    ghost var was := window[..];
    if distance >= WINDOW {
      window[0], window[1], window[2], window[3] := 0, 0, 0, 0;
      forall d: nat | d < WINDOW ensures !BitOf(window[..], d) {
        BitZero(d % 64);
      }
      return;
    }
    var wordShift, bitShift := distance / 64, distance % 64;
    var shifted := new Word[4](_ => 0);
    var destination := WINDOW_WORDS - 1;
    while destination >= 0
      invariant -1 <= destination < WINDOW_WORDS
      invariant window[..] == was
      invariant forall k: nat :: destination < k < WINDOW_WORDS ==> shifted[k] == ShiftedWord(was, distance, k)
      invariant forall k: nat :: k <= destination ==> shifted[k] == 0
    {
      var source := destination - wordShift;
      if source >= 0 {
        shifted[destination] := OrWord(shifted[destination], Shl(window[source], bitShift));
        if bitShift > 0 && source > 0 {
          shifted[destination] := OrWord(shifted[destination], Shr(window[source - 1], 64 - bitShift));
        }
      }
      destination := destination - 1;
    }
    window[0], window[1], window[2], window[3] := shifted[0], shifted[1], shifted[2], shifted[3];
    BitsShifted(was, distance, window[..]);
  }

  lemma BitsShifted(was: seq<Word>, distance: nat, window: seq<Word>)
    requires |was| == |window| == WINDOW_WORDS && distance < WINDOW
    requires forall k: nat :: k < WINDOW_WORDS ==> window[k] == ShiftedWord(was, distance, k)
    ensures forall d: nat :: d < WINDOW ==> (BitOf(window, d) <==> d >= distance && BitOf(was, d - distance))
  {
    forall d: nat | d < WINDOW
      ensures BitOf(window, d) <==> d >= distance && BitOf(was, d - distance)
    {
      BitShiftedWord(was, distance, d / 64, d % 64);
    }
  }
}
