/** 32-bit registers and the numbers that sequences of them stand for. */
module CpuWords {

  const BASE: nat := 0x1_0000_0000
  const HALF: nat := 0x8000_0000

  /** A register holds a signed 32-bit value. */
  type Reg = x: int | -0x8000_0000 <= x < 0x8000_0000

  /** The same bits read as an unsigned number. */
  function Unsigned(x: Reg): (u: nat)
    ensures u < BASE
  {
    if x < 0 then x as int + BASE else x
  }

  /** The register value with the low 32 bits of a sum or difference of two registers and a carry. */
  function Wrap(x: int): (r: Reg)
    requires -0x1_0000_0000 <= x < BASE
  {
    if x >= HALF then x - BASE else if x < -0x8000_0000 then x + BASE else x
  }

  /** 2 to the power 32n. */
  function BaseTo(n: nat): (p: nat)
    ensures p > 0
  {
    if n == 0 then 1 else BASE * BaseTo(n - 1)
  }

  /** The unsigned number of a sequence of words, least significant first. */
  function Value(ws: seq<Reg>): nat
    decreases |ws|
  {
    if ws == [] then 0 else Value(ws[..|ws| - 1]) + Unsigned(ws[|ws| - 1]) * BaseTo(|ws| - 1)
  }

  /** The two's-complement number of a sequence of words. */
  function Signed(ws: seq<Reg>): int {
    if ws == [] then 0 else Value(ws[..|ws| - 1]) + (ws[|ws| - 1] as int) * BaseTo(|ws| - 1)
  }

  lemma {:induction false} ValueBound(ws: seq<Reg>)
    ensures Value(ws) < BaseTo(|ws|)
    decreases |ws|
  {
    if ws != [] {
      var p := BaseTo(|ws| - 1);
      var u := Unsigned(ws[|ws| - 1]);
      ValueBound(ws[..|ws| - 1]);
      assert u * p <= (BASE - 1) * p by { MulMonotone(u, BASE - 1, p); }
    }
  }

  lemma ValueAppend(ws: seq<Reg>, x: Reg)
    ensures Value(ws + [x]) == Value(ws) + Unsigned(x) * BaseTo(|ws|)
  {
    assert (ws + [x])[..|ws + [x]| - 1] == ws;
  }

  lemma MulMonotone(x: int, y: int, p: nat)
    requires x <= y
    ensures x * p <= y * p
  {}

  /** The two readings differ by the weight of the sign bit's successor. */
  lemma SignedIsValue(ws: seq<Reg>)
    requires ws != []
    ensures Signed(ws) == Value(ws) - if ws[|ws| - 1] < 0 then BaseTo(|ws|) else 0
  {
    var p := BaseTo(|ws| - 1);
    var x: int := ws[|ws| - 1];
    if x < 0 {
      assert (x + BASE) * p == x * p + BASE * p;
    }
  }
}
