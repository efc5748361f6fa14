/** The three-valued booleans of the SAT solver, used by the solver's assignment and by the ternary simulator. */
module Lbools {

  datatype LB = LTrue | LFalse | LUndef
  {
    /** The value of a literal from the value of its variable. */
    function Xor(sign: bool): LB {
      match this
      case LTrue => if sign then LFalse else LTrue
      case LFalse => if sign then LTrue else LFalse
      case LUndef => LUndef
    }

    function And(b: LB): LB {
      if this == LFalse || b == LFalse then LFalse
      else if this == LTrue && b == LTrue then LTrue
      else LUndef
    }

    function Or(b: LB): LB {
      if this == LTrue || b == LTrue then LTrue
      else if this == LFalse && b == LFalse then LFalse
      else LUndef
    }

    /** The information order: an undefined value may be refined to either boolean. */
    predicate Below(b: LB) {
      this == LUndef || this == b
    }
  }

  function FromBool(b: bool): LB {
    if b then LTrue else LFalse
  }

  // The class stores a value in two bits; 2 and 3 both stand for "undefined", and the
  // connectives are one look-up in a 32-bit constant.

  function Decode(v: bv8): LB {
    if v & 2 != 0 then LUndef else if v == 0 then LTrue else LFalse
  }

  function Select(a: bv8, b: bv8): bv32
    requires a < 4 && b < 4
  {
    ((a as bv32) << 1) | ((b as bv32) << 3)
  }

  function RawAnd(a: bv8, b: bv8): bv8
    requires a < 4 && b < 4
  {
    (((0xF7F755F4 as bv32) >> Select(a, b)) & 3) as bv8
  }

  function RawOr(a: bv8, b: bv8): bv8
    requires a < 4 && b < 4
  {
    (((0xFCFCF400 as bv32) >> Select(a, b)) & 3) as bv8
  }

  function RawXor(a: bv8, sign: bool): bv8 {
    a ^ (if sign then 1 else 0)
  }

  /** The bit tricks compute the three-valued connectives on all encodings, including both codes of "undefined". */
  lemma RawConnectives(a: bv8, b: bv8, sign: bool)
    requires a < 4 && b < 4
    ensures RawAnd(a, b) < 4 && Decode(RawAnd(a, b)) == Decode(a).And(Decode(b))
    ensures RawOr(a, b) < 4 && Decode(RawOr(a, b)) == Decode(a).Or(Decode(b))
    ensures RawXor(a, sign) < 4 && Decode(RawXor(a, sign)) == Decode(a).Xor(sign)
  {
  }
}
