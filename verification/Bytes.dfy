/** Numbers as their bytes, least first, in a fixed count of them:
    the number read back from its bytes is the number written. */
module Bytes {
  import opened Paths

  /** `n` bytes, least first. */
  function Little(x: nat, n: nat): (bytes: Name)
    ensures |bytes| == n
  {
    if n == 0 then [] else [x % 256] + Little(x / 256, n - 1)
  }

  function Limit(n: nat): nat {
    if n == 0 then 1 else 256 * Limit(n - 1)
  }

  lemma {:induction false} LittleUnique(x: nat, y: nat, n: nat)
    requires x < Limit(n) && y < Limit(n) && Little(x, n) == Little(y, n)
    ensures x == y
  {
    if n > 0 {
      var (a, b) := (Little(x, n), Little(y, n));
      assert a[0] == x % 256 && b[0] == y % 256;
      assert a[1..] == Little(x / 256, n - 1) && b[1..] == Little(y / 256, n - 1);
      LittleUnique(x / 256, y / 256, n - 1);
    }
  }

  function Number(bytes: Name): nat {
    if bytes == [] then 0 else bytes[0] + 256 * Number(bytes[1..])
  }

  lemma {:induction false} NumberOfLittle(x: nat, n: nat)
    requires x < Limit(n)
    ensures Number(Little(x, n)) == x
  {
    if n > 0 {
      assert Little(x, n)[1..] == Little(x / 256, n - 1);
      NumberOfLittle(x / 256, n - 1);
    }
  }
}
