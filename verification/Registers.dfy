/**
 Fields of 32-bit registers.
 */
module Registers {

  /** Five-bit field `p`. */
  function Five(w: bv32, p: bv32): bv32
    requires p <= 5
  {
    (w >> (5 * p)) & 0x1F
  }

  function PutFive(w: bv32, p: bv32, v: bv32): bv32
    requires p <= 6
  {
    (w & !(0x1F << (5 * p))) | (v << (5 * p))
  }

  lemma FiveAfterPut(w: bv32, p: bv32, q: bv32, v: bv32)
    requires p <= 6 && q <= 5 && v <= 0x1F
    ensures Five(PutFive(w, p, v), q) == if q == p then v else Five(w, q)
  {
  }

  function Three(w: bv32, p: bv32): bv32
    requires p <= 9
  {
    (w >> (3 * p)) & 7
  }

  function PutThree(w: bv32, p: bv32, v: bv32): bv32
    requires p <= 9
  {
    (w & !(7 << (3 * p))) | (v << (3 * p))
  }

  lemma ThreeAfterPut(w: bv32, p: bv32, q: bv32, v: bv32)
    requires p <= 9 && q <= 9 && v <= 7
    ensures Three(PutThree(w, p, v), q) == if q == p then v else Three(w, q)
  {
  }

  function Four(w: bv32, p: bv32): bv32
    requires p <= 7
  {
    (w >> (4 * p)) & 0xF
  }

  function PutFour(w: bv32, p: bv32, v: bv32): bv32
    requires p <= 7
  {
    (w & !(0xF << (4 * p))) | (v << (4 * p))
  }

  lemma FourAfterPut(w: bv32, p: bv32, q: bv32, v: bv32)
    requires p <= 7 && q <= 7 && v <= 0xF
    ensures Four(PutFour(w, p, v), q) == if q == p then v else Four(w, q)
  {
  }

  lemma SameFours(w: bv32, w': bv32)
    requires Four(w, 0) == Four(w', 0) && Four(w, 1) == Four(w', 1) && Four(w, 2) == Four(w', 2) &&
        Four(w, 3) == Four(w', 3)
    requires Four(w, 4) == Four(w', 4) && Four(w, 5) == Four(w', 5) && Four(w, 6) == Four(w', 6) &&
        Four(w, 7) == Four(w', 7)
    ensures w == w'
  {
  }
}
