/** Comparing two strings in a time that does not depend on where they differ. */
module ConstantTime {

  /** UTF-16 code units; no string is as long as the 32-bit integers of bitwise operators are wide. */
  type Units = seq<nat>

  function Xor(a: nat, b: nat): nat {
    if a == 0 && b == 0 then 0 else (if a % 2 == b % 2 then 0 else 1) + 2 * Xor(a / 2, b / 2)
  }

  function Or(a: nat, b: nat): nat {
    if a == 0 && b == 0 then 0 else (if a % 2 == 0 && b % 2 == 0 then 0 else 1) + 2 * Or(a / 2, b / 2)
  }

  lemma {:induction false} XorTells(a: nat, b: nat)
    ensures Xor(a, b) == 0 <==> a == b
  {
    if a != 0 || b != 0 {
      XorTells(a / 2, b / 2);
      assert a == 2 * (a / 2) + a % 2 && b == 2 * (b / 2) + b % 2;
    }
  }

  lemma {:induction false} OrTells(a: nat, b: nat)
    ensures Or(a, b) == 0 <==> a == 0 && b == 0
  {
    if a != 0 || b != 0 {
      OrTells(a / 2, b / 2);
    }
  }

  /** A position past the end reads as zero. */
  function UnitAt(s: Units, i: nat): nat {
    if i < |s| then s[i] else 0
  }

  /** Every position is visited, past the end of the shorter string too, and the answer is equality. */
  method ConstantTimeEqual(left: Units, right: Units) returns (equal: bool)
    ensures equal <==> left == right
  {
    hide Xor, Or;
    var length := if |left| < |right| then |right| else |left|;
    var mismatch := Xor(|left|, |right|);
    XorTells(|left|, |right|);
    for index := 0 to length
      invariant mismatch == 0 <==>
        |left| == |right| && forall k :: 0 <= k < index ==> UnitAt(left, k) == UnitAt(right, k)
    {
      XorTells(UnitAt(left, index), UnitAt(right, index));
      OrTells(mismatch, Xor(UnitAt(left, index), UnitAt(right, index)));
      mismatch := Or(mismatch, Xor(UnitAt(left, index), UnitAt(right, index)));
    }
    if mismatch == 0 {
      forall k | 0 <= k < |left| ensures left[k] == right[k] {
        assert UnitAt(left, k) == UnitAt(right, k);
      }
    }
    return mismatch == 0;
  }
}
