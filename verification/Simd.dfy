/** The vector instructions the packet scanners use, lane by lane, and what their masks mean. */
module Simd {
  import opened Machine

  /** Lane-wise equality: every lane is 0xff or 0x00. */
  function CmpEq<T(==)>(a: seq<T>, b: seq<T>): seq<bv8>
    requires |a| == |b|
  {
    seq(|a|, i requires 0 <= i < |a| => if a[i] == b[i] then 0xff else 0x00)
  }

  /** Lane-wise conjunction. */
  function And(a: seq<bv8>, b: seq<bv8>): seq<bv8>
    requires |a| == |b|
  {
    seq(|a|, i requires 0 <= i < |a| => a[i] & b[i])
  }

  function Splat<T>(lanes: nat, value: T): seq<T> {
    seq(lanes, _ => value)
  }

  ghost predicate FullLanes(lanes: seq<bv8>) {
    forall i | 0 <= i < |lanes| :: lanes[i] == 0xff || lanes[i] == 0x00
  }

  /** `_mm_movemask_epi8`: bit i is the top bit of lane i. */
  function MoveMask(lanes: seq<bv8>): nat {
    if lanes == [] then 0
    else (if lanes[0] & 0x80 != 0 then 1 else 0) + 2 * MoveMask(lanes[1..])
  }

  lemma {:induction false} MoveMaskSnoc(lanes: seq<bv8>, lane: bv8)
    ensures MoveMask(lanes + [lane]) == MoveMask(lanes) + (if lane & 0x80 != 0 then PowerOf2(|lanes|) else 0)
  {
    if lanes == [] {
      assert lanes + [lane] == [lane];
      assert [lane][1..] == [];
    } else {
      assert (lanes + [lane])[1..] == lanes[1..] + [lane];
      MoveMaskSnoc(lanes[1..], lane);
    }
  }

  /** `mask_from_full_byte_lanes`: bit i is set when lane i is not zero. Setting a bit above every bit
      set so far adds its value. */
  method MaskFromFullByteLanes(lanes: seq<bv8>) returns (mask: nat)
    requires FullLanes(lanes)
    ensures mask == MoveMask(lanes)
  {
    mask := 0;
    for index := 0 to |lanes|
      invariant mask == MoveMask(lanes[..index]) < PowerOf2(index)
    {
      assert lanes[..index + 1] == lanes[..index] + [lanes[index]];
      MoveMaskSnoc(lanes[..index], lanes[index]);
      if lanes[index] != 0 {
        mask := mask + PowerOf2(index);
      }
    }
    assert lanes[..|lanes|] == lanes;
  }

  /** Bit `i` of the mask is the top bit of lane `i`. */
  lemma {:induction false} MaskBit(lanes: seq<bv8>, i: nat)
    requires i < |lanes|
    ensures ShiftedRight(MoveMask(lanes), i) % 2 == 1 <==> lanes[i] >= 128
  {
    var bit := if lanes[0] & 0x80 != 0 then 1 else 0;
    assert MoveMask(lanes) == bit + 2 * MoveMask(lanes[1..]);
    assert lanes[0] & 0x80 != 0 <==> lanes[0] >= 128;
    if i == 0 {
    } else {
      MaskBit(lanes[1..], i - 1);
      assert (bit + 2 * MoveMask(lanes[1..])) / 2 == MoveMask(lanes[1..]);
    }
  }

  /** `u32::count_ones`. */
  function CountOnes(mask: nat): nat {
    if mask == 0 then 0 else mask % 2 + CountOnes(mask / 2)
  }

  function CountSet(lanes: seq<bv8>): nat {
    if lanes == [] then 0 else CountSet(lanes[..|lanes| - 1]) + (if lanes[|lanes| - 1] != 0 then 1 else 0)
  }

  lemma {:induction false} CountSetCons(lane: bv8, lanes: seq<bv8>)
    ensures CountSet([lane] + lanes) == (if lane != 0 then 1 else 0) + CountSet(lanes)
  {
    var all := [lane] + lanes;
    if lanes == [] {
      assert all[..0] == [];
    } else {
      CountSetCons(lane, lanes[..|lanes| - 1]);
      assert all[..|lanes|] == [lane] + lanes[..|lanes| - 1];
    }
  }

  lemma OnesOfDoubled(rest: nat, bit: nat)
    requires bit <= 1
    ensures CountOnes(bit + 2 * rest) == bit + CountOnes(rest)
  {
    assert (bit + 2 * rest) % 2 == bit && (bit + 2 * rest) / 2 == rest;
  }

  /** The population count of the mask is the number of lanes that matched. */
  lemma {:induction false} MaskCountsLanes(lanes: seq<bv8>)
    requires FullLanes(lanes)
    ensures CountOnes(MoveMask(lanes)) == CountSet(lanes)
    ensures MoveMask(lanes) != 0 <==> exists i :: 0 <= i < |lanes| && lanes[i] != 0
  {
    if lanes == [] {
    } else {
      MaskCountsLanes(lanes[1..]);
      CountSetCons(lanes[0], lanes[1..]);
      assert lanes == [lanes[0]] + lanes[1..];
      OnesOfDoubled(MoveMask(lanes[1..]), if lanes[0] != 0 then 1 else 0);
      assert MoveMask(lanes) == (if lanes[0] != 0 then 1 else 0) + 2 * MoveMask(lanes[1..]);
      hide CountOnes, CountSet, MoveMask, FullLanes;
      if exists i :: 0 <= i < |lanes| && lanes[i] != 0 {
        var i :| 0 <= i < |lanes| && lanes[i] != 0;
        if i > 0 {
          assert lanes[1..][i - 1] != 0;
        }
      }
    }
  }

  /** `simd_any_eq_u8x16` where the target has a mask instruction. */
  function AnyEq<T(==)>(values: seq<T>, needle: T): (found: bool)
    ensures found <==> needle in values
  {
    var matches := CmpEq(values, Splat(|values|, needle));
    MaskCountsLanes(matches);
    assert forall i | 0 <= i < |values| :: matches[i] != 0 <==> values[i] == needle;
    MoveMask(matches) != 0
  }

  /** `vmaxvq_u8`: the largest lane, as an unsigned byte. */
  function MaxLane(lanes: seq<bv8>): (m: bv8)
    ensures m != 0 <==> exists i :: 0 <= i < |lanes| && lanes[i] != 0
  {
    if lanes == [] then 0
    else
      var rest := MaxLane(lanes[1..]);
      if lanes[0] < rest then rest else lanes[0]
  }

  /** `simd_any_eq_u8x16` where the target compares by the largest lane: the same answer. */
  function AnyEqByMaxLane<T(==)>(values: seq<T>, needle: T): (found: bool)
    ensures found <==> needle in values
    ensures found == AnyEq(values, needle)
  {
    var matches := CmpEq(values, Splat(|values|, needle));
    assert forall i | 0 <= i < |values| :: matches[i] == if values[i] == needle then 0xff else 0x00;
    MaxLane(matches) != 0
  }
}
