/** 64-bit words as numbers, and the address bits of a page-table entry among them. */
module Words {
  const ADDR_MASK: bv64 := 0x000F_FFFF_FFFF_F000

  // The digits of a word, cut where an entry cuts it: 12 bits, then 16, 16 and 8 of the address, then 12.
  function Digit0(x: bv64): bv16 { (x & 0xFFF) as bv16 }
  function Digit1(x: bv64): bv16 { ((x >> 12) & 0xFFFF) as bv16 }
  function Digit2(x: bv64): bv16 { ((x >> 28) & 0xFFFF) as bv16 }
  function Digit3(x: bv64): bv16 { ((x >> 44) & 0xFF) as bv16 }
  function Digit4(x: bv64): bv16 { ((x >> 52) & 0xFFF) as bv16 }

  function Number(n0: nat, n1: nat, n2: nat, n3: nat, n4: nat): nat {
    n0 + 0x1000 * n1 + 0x1000_0000 * n2 + 0x1000_0000_0000 * n3 + 0x10_0000_0000_0000 * n4
  }

  /** The number a word stands for. */
  function Value(x: bv64): nat {
    Number(Digit0(x) as nat, Digit1(x) as nat, Digit2(x) as nat, Digit3(x) as nat, Digit4(x) as nat)
  }

  lemma Masked(x: bv64)
    ensures var m := x & ADDR_MASK;
            && Digit0(m) == 0 && Digit1(m) == Digit1(x) && Digit2(m) == Digit2(x) && Digit3(m) == Digit3(x)
            && Digit4(m) == 0
  {
  }

  lemma MaskedValue(x: bv64)
    ensures Value(x & ADDR_MASK) == Number(0, Digit1(x) as nat, Digit2(x) as nat, Digit3(x) as nat, 0)
  {
    Masked(x);
  }

  lemma ShortDigits(x: bv64)
    ensures Digit0(x) < 0x1000 && Digit3(x) < 0x100
  {
  }

  lemma DigitValue(d: bv16)
    ensures d as nat < 0x1_0000 && (d < 0x1000 ==> d as nat < 0x1000) && (d < 0x100 ==> d as nat < 0x100)
  {
  }

  lemma DigitBounds(x: bv64, n0: nat, n1: nat, n2: nat, n3: nat)
    requires n0 == Digit0(x) as nat && n1 == Digit1(x) as nat && n2 == Digit2(x) as nat && n3 == Digit3(x) as nat
    ensures n0 < 0x1000 && n1 < 0x1_0000 && n2 < 0x1_0000 && n3 < 0x100
  {
    ShortDigits(x);
    DigitValue(Digit0(x));
    DigitValue(Digit1(x));
    DigitValue(Digit2(x));
    DigitValue(Digit3(x));
  }

  lemma Divided(v: nat, k: nat, r: nat)
    requires v == 0x1000 * k + r && r < 0x1000
    ensures v / 0x1000 == k
  {
  }

  lemma Reduced(k: nat, low: nat, high: nat)
    requires k == low + 0x100_0000_0000 * high && low < 0x100_0000_0000
    ensures k % 0x100_0000_0000 == low
  {
  }

  lemma FrameNumber(v: nat, m: nat, n0: nat, n1: nat, n2: nat, n3: nat, n4: nat)
    requires v == Number(n0, n1, n2, n3, n4) && m == Number(0, n1, n2, n3, 0)
    requires n0 < 0x1000 && n1 < 0x1_0000 && n2 < 0x1_0000 && n3 < 0x100
    ensures m / 0x1000 == v / 0x1000 % 0x100_0000_0000
  {
    var low := n1 + 0x1_0000 * n2 + 0x1_0000_0000 * n3;
    Divided(m, low, 0);
    Divided(v, low + 0x100_0000_0000 * n4, n0);
    Reduced(low + 0x100_0000_0000 * n4, low, n4);
  }

  /** Masking an address with the bits an entry has for it is taking its frame number within 52 bits. */
  lemma FrameValue(x: bv64)
    ensures Value(x & ADDR_MASK) / 0x1000 == Value(x) / 0x1000 % 0x100_0000_0000
  {
    var n0: nat, n1: nat, n2: nat, n3: nat, n4: nat :=
      Digit0(x) as nat, Digit1(x) as nat, Digit2(x) as nat, Digit3(x) as nat, Digit4(x) as nat;
    DigitBounds(x, n0, n1, n2, n3);
    MaskedValue(x);
    FrameNumber(Value(x), Value(x & ADDR_MASK), n0, n1, n2, n3, n4);
  }
}
