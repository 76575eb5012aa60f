/** Integers in network byte order. */
module BufferInts {
  import opened Bytes

  function Pow256(k: nat): (r: nat)
    ensures r > 0
  {
    if k == 0 then 1 else 256 * Pow256(k - 1)
  }

  /** The unsigned number that some bytes stand for, most significant first. */
  function Unsigned(s: seq<Byte>): nat {
    if s == [] then 0 else 256 * Unsigned(s[..|s| - 1]) + s[|s| - 1]
  }

  /** k bytes for a number below 256^k. */
  function Digits(n: nat, k: nat): (s: seq<Byte>)
    ensures |s| == k
  {
    if k == 0 then [] else Digits(n / 256, k - 1) + [n % 256]
  }

  lemma {:induction false} UnsignedBound(s: seq<Byte>)
    ensures Unsigned(s) < Pow256(|s|)
  {
    if s != [] {
      UnsignedBound(s[..|s| - 1]);
    }
  }

  lemma {:induction false} DigitsValue(n: nat, k: nat)
    requires n < Pow256(k)
    ensures Unsigned(Digits(n, k)) == n
  {
    if k > 0 {
      DigitsValue(n / 256, k - 1);
      var s := Digits(n, k);
      assert s[..k - 1] == Digits(n / 256, k - 1);
    }
  }

  lemma {:induction false} ValueDigits(s: seq<Byte>)
    ensures Digits(Unsigned(s), |s|) == s
  {
    if s != [] {
      ValueDigits(s[..|s| - 1]);
      assert s == s[..|s| - 1] + [s[|s| - 1]];
    }
  }

  /** The range of a signed integer of k bytes. */
  predicate Fits(n: int, k: nat) {
    var p: int := Pow256(k);
    -p <= 2 * n < p
  }

  /** hostToNet: two's complement, most significant byte first. */
  function ToNet(n: int, k: nat): (s: seq<Byte>)
    requires Fits(n, k)
    ensures |s| == k
  {
    Digits(if n < 0 then n + Pow256(k) else n, k)
  }

  /** netToHost */
  function FromNet(s: seq<Byte>): int {
    var u := Unsigned(s);
    if 2 * u < Pow256(|s|) then u else u - Pow256(|s|)
  }

  /** Writing and reading an integer of any width are inverse to each other. */
  lemma NetRoundTrip(n: int, k: nat, s: seq<Byte>)
    ensures Fits(n, k) ==> FromNet(ToNet(n, k)) == n
    ensures Fits(FromNet(s), |s|) && ToNet(FromNet(s), |s|) == s
  {
    hide Pow256, Unsigned, Digits;
    UnsignedBound(s);
    ValueDigits(s);
    if Fits(n, k) {
      DigitsValue(if n < 0 then n + Pow256(k) else n, k);
    }
  }
}
