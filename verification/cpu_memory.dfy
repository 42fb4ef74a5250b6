/** Byte memory with 32-bit addresses, and words pushed to it. */
module CpuMemory {

  const SPACE: nat := 0x1_0000_0000

  type Word = n: nat | n < 0x1_0000_0000

  type Byte = n: nat | n < 256

  /** The mapped bytes. */
  type Memory = map<Word, Byte>

  /** Addresses wrap around. */
  function Addr(a: int): (w: Word)
    decreases if a < 0 then SPACE - a else a
  {
    if a < 0 then Addr(a + 0x1_0000_0000) else if a < 0x1_0000_0000 then a else Addr(a - 0x1_0000_0000)
  }

  lemma {:induction false} AddrIs(a: int)
    ensures Addr(a) == a % 0x1_0000_0000
    decreases if a < 0 then SPACE - a else a
  {
    if a < 0 {
      AddrIs(a + 0x1_0000_0000);
    } else if a >= 0x1_0000_0000 {
      AddrIs(a - 0x1_0000_0000);
    }
  }

  lemma AddrNear(a: int, d: int)
    requires 0 < d < SPACE
    ensures Addr(a) != Addr(a + d)
  {
    AddrIs(a);
    AddrIs(a + d);
  }

  lemma AddrMinus(x: int, a: int)
    ensures Addr(Addr(x) - a) == Addr(x - a)
  {
    AddrIs(x);
    AddrIs(x - a);
    AddrIs(Addr(x) - a);
  }

  /** Where byte d of the word at a lies. */
  function Cell(a: int, d: nat): Word {
    Addr(a + d)
  }

  /** All four bytes of the word at a are mapped. */
  predicate Mapped(m: Memory, a: int) {
    forall d :: 0 <= d < 4 ==> Cell(a, d) in m
  }

  /** The bytes of a word, least significant first. */
  function Bytes(w: Word): (bs: seq<Byte>)
    ensures |bs| == 4
  {
    [w % 256, w / 256 % 256, w / 65536 % 256, w / 16777216]
  }

  function Join(bs: seq<Byte>): Word
    requires |bs| == 4
  {
    (bs[0] as int) + 256 * (bs[1] as int) + 65536 * (bs[2] as int) + 16777216 * (bs[3] as int)
  }

  lemma JoinBytes(w: Word)
    ensures Join(Bytes(w)) == w
  {
    assert w / 256 / 256 == w / 65536 && w / 65536 / 256 == w / 16777216;
  }

  function LoadBytes(m: Memory, a: int): (bs: seq<Byte>)
    requires Mapped(m, a)
    ensures |bs| == 4
  {
    seq(4, d requires 0 <= d < 4 => m[Cell(a, d)])
  }

  function Load(m: Memory, a: int): Word
    requires Mapped(m, a)
  {
    Join(LoadBytes(m, a))
  }

  function StoreBytes(m: Memory, a: int, bs: seq<Byte>): (n: Memory)
    requires forall d :: 0 <= d < |bs| ==> Cell(a, d) in m
    ensures n.Keys == m.Keys
    decreases |bs|
  {
    if bs == [] then m else StoreBytes(m, a, bs[..|bs| - 1])[Cell(a, |bs| - 1) := bs[|bs| - 1]]
  }

  function Store(m: Memory, a: int, w: Word): (n: Memory)
    requires Mapped(m, a)
    ensures n.Keys == m.Keys
  {
    StoreBytes(m, a, Bytes(w))
  }

  lemma {:induction false} StoredByte(m: Memory, a: int, bs: seq<Byte>, d: nat)
    requires d < |bs| <= 4 && forall d :: 0 <= d < |bs| ==> Cell(a, d) in m
    ensures StoreBytes(m, a, bs)[Cell(a, d)] == bs[d]
    decreases |bs|
  {
    var n := |bs| - 1;
    if d < n {
      AddrNear(a + d, n - d);
      StoredByte(m, a, bs[..n], d);
    }
  }

  lemma StoreThere(m: Memory, a: int, w: Word)
    requires Mapped(m, a)
    ensures Load(Store(m, a, w), a) == w
  {
    forall d | 0 <= d < 4 ensures LoadBytes(Store(m, a, w), a)[d] == Bytes(w)[d] {
      StoredByte(m, a, Bytes(w), d);
    }
    assert LoadBytes(Store(m, a, w), a) == Bytes(w);
    JoinBytes(w);
  }

  /** Is b one of the n bytes from a upwards? */
  predicate Within(b: Word, a: int, n: nat) {
    Addr(b - a) < n
  }

  lemma WithinIs(x: int, a: int, n: nat)
    requires a <= x < a + SPACE
    ensures Within(Addr(x), a, n) <==> x < a + n
  {
    AddrMinus(x, a);
  }

  lemma WithinWider(b: Word, a: int, n: nat, c: int, k: nat)
    requires Within(b, a, n) && c <= a && a + n <= c + k
    ensures Within(b, c, k)
  {
    AddrIs(b - a);
    AddrIs(b - c);
  }

  lemma {:induction false} BytesElsewhere(m: Memory, a: int, bs: seq<Byte>, b: Word)
    requires |bs| <= 4 && (forall d :: 0 <= d < |bs| ==> Cell(a, d) in m) && !Within(b, a, 4) && b in m
    ensures StoreBytes(m, a, bs)[b] == m[b]
    decreases |bs|
  {
    if bs != [] {
      WithinIs(a + |bs| - 1, a, 4);
      BytesElsewhere(m, a, bs[..|bs| - 1], b);
    }
  }

  lemma StoreElsewhere(m: Memory, a: int, w: Word, b: Word)
    requires Mapped(m, a) && !Within(b, a, 4) && b in m
    ensures Store(m, a, w)[b] == m[b]
  {
    BytesElsewhere(m, a, Bytes(w), b);
  }

  lemma LoadElsewhere(m: Memory, a: int, w: Word, c: int)
    requires Mapped(m, a) && Mapped(m, c) && a + 4 <= c && c + 4 <= a + SPACE
    ensures Load(Store(m, a, w), c) == Load(m, c)
  {
    forall d | 0 <= d < 4 ensures Store(m, a, w)[Cell(c, d)] == m[Cell(c, d)] {
      WithinIs(c + d, a, 4);
      StoreElsewhere(m, a, w, Cell(c, d));
    }
    assert LoadBytes(Store(m, a, w), c) == LoadBytes(m, c);
  }

  lemma AddrPlus(a: int, b: int, k: int)
    requires Addr(a) == Addr(b)
    ensures Addr(a + k) == Addr(b + k)
  {
    AddrIs(a);
    AddrIs(b);
    AddrIs(a + k);
    AddrIs(b + k);
  }

  lemma SameCells(a: int, b: int)
    requires Addr(a) == Addr(b)
    ensures forall d :: 0 <= d < 4 ==> Cell(a, d) == Cell(b, d)
  {
    forall d | 0 <= d < 4 ensures Cell(a, d) == Cell(b, d) {
      AddrPlus(a, b, d);
    }
  }

  lemma {:induction false} SameBytes(m: Memory, a: int, b: int, bs: seq<Byte>)
    requires Addr(a) == Addr(b) && |bs| <= 4 && Mapped(m, a) && Mapped(m, b)
    ensures StoreBytes(m, a, bs) == StoreBytes(m, b, bs)
    decreases |bs|
  {
    if bs != [] {
      SameCells(a, b);
      SameBytes(m, a, b, bs[..|bs| - 1]);
    }
  }

  /** Two numbers for one address mean the same word. */
  lemma SameAddress(m: Memory, a: int, b: int)
    requires Addr(a) == Addr(b)
    ensures Mapped(m, a) == Mapped(m, b)
    ensures Mapped(m, a) ==> Load(m, a) == Load(m, b)
    ensures Mapped(m, a) ==> forall w :: Store(m, a, w) == Store(m, b, w)
  {
    SameCells(a, b);
    if Mapped(m, a) {
      assert LoadBytes(m, a) == LoadBytes(m, b);
      forall w: Word ensures Store(m, a, w) == Store(m, b, w) {
        SameBytes(m, a, b, Bytes(w));
      }
    }
  }

  // ---------- words pushed downwards ----------

  /** Where the word pushed i-th goes. */
  function Slot(top: int, i: nat): int {
    top - 4 - 4 * i
  }

  /** The first n slots below top are mapped. */
  predicate MappedBelow(m: Memory, top: int, n: nat) {
    forall i :: 0 <= i < n ==> Mapped(m, Slot(top, i))
  }

  /** Stores the first n of the words ws in the slots below top. */
  function Push(m: Memory, top: int, ws: seq<Word>, n: nat): (p: Memory)
    requires n <= |ws| && MappedBelow(m, top, n)
    ensures p.Keys == m.Keys
  {
    if n == 0 then m else Store(Push(m, top, ws, n - 1), Slot(top, n - 1), ws[n - 1])
  }

  /** Only the pushed bytes change. */
  lemma {:induction false} PushElsewhere(m: Memory, top: int, ws: seq<Word>, n: nat, b: Word)
    requires n <= |ws| && MappedBelow(m, top, n) && b in m && !Within(b, top - 4 * n, 4 * n)
    ensures Push(m, top, ws, n)[b] == m[b]
  {
    if n > 0 {
      if Within(b, top - 4 * (n - 1), 4 * (n - 1)) {
        WithinWider(b, top - 4 * (n - 1), 4 * (n - 1), top - 4 * n, 4 * n);
      }
      PushElsewhere(m, top, ws, n - 1, b);
      StoreElsewhere(Push(m, top, ws, n - 1), Slot(top, n - 1), ws[n - 1], b);
    }
  }

  /** The word pushed i-th is found where it was put. */
  lemma {:induction false} PushedWord(m: Memory, top: int, ws: seq<Word>, n: nat, i: nat)
    requires i < n <= |ws| && MappedBelow(m, top, n) && n <= 0x4000_0000
    ensures Load(Push(m, top, ws, n), Slot(top, i)) == ws[i]
    decreases n
  {
    if i == n - 1 {
      StoreThere(Push(m, top, ws, n - 1), Slot(top, n - 1), ws[n - 1]);
    } else {
      PushedWord(m, top, ws, n - 1, i);
      LoadElsewhere(Push(m, top, ws, n - 1), Slot(top, n - 1), ws[n - 1], Slot(top, i));
    }
  }
}
