/** Ethernet addresses and the byte-wise comparison that orders the address table. */
module MacAddress {

  type Mac = m: seq<bv8> | |m| == 6 witness [0, 0, 0, 0, 0, 0]

  const BROADCAST: Mac := [0xFF, 0xFF, 0xFF, 0xFF, 0xFF, 0xFF]

  /** The address read as one big-endian number. */
  function Num(m: seq<bv8>): (n: nat) {
    if m == [] then 0 else Num(m[..|m| - 1]) * 256 + m[|m| - 1] as int
  }

  /** Two addresses are ordered as numbers by the first byte in which they differ. */
  lemma {:induction false} FirstDifferenceDecides(a: seq<bv8>, b: seq<bv8>, i: nat)
    requires i < |a| == |b| && a[..i] == b[..i] && a[i] as int < b[i] as int
    ensures Num(a) < Num(b)
  {
    var n := |a| - 1;
    if i < n {
      assert a[..n][..i] == a[..i] && b[..n][..i] == b[..i];
      FirstDifferenceDecides(a[..n], b[..n], i);
    }
  }

  method CmpEtherMac(mac1: Mac, mac2: Mac) returns (r: int)
    ensures r < 0 <==> Num(mac1) < Num(mac2)
    ensures r > 0 <==> Num(mac1) > Num(mac2)
    ensures r == 0 <==> mac1 == mac2
  {
    for i := 0 to 6
      invariant mac1[..i] == mac2[..i]
    {
      r := mac1[i] as int - mac2[i] as int;
      if r != 0 {
        if r < 0 {
          FirstDifferenceDecides(mac1, mac2, i);
        } else {
          FirstDifferenceDecides(mac2, mac1, i);
        }
        return;
      }
      assert mac1[i] == mac2[i];
    }
    assert mac1 == mac1[..6] && mac2 == mac2[..6];
    r := 0;
  }

  lemma NumInjective(a: Mac, b: Mac)
    requires Num(a) == Num(b)
    ensures a == b
  {
    if a != b {
      var i := FirstDifference(a, b);
      if a[i] as int < b[i] as int {
        FirstDifferenceDecides(a, b, i);
      } else {
        FirstDifferenceDecides(b, a, i);
      }
    }
  }

  lemma {:induction false} FirstDifference(a: seq<bv8>, b: seq<bv8>) returns (i: nat)
    requires |a| == |b| && a != b
    ensures i < |a| && a[..i] == b[..i] && a[i] != b[i]
  {
    if a[0] != b[0] {
      i := 0;
    } else {
      assert a == [a[0]] + a[1..] && b == [b[0]] + b[1..];
      i := FirstDifference(a[1..], b[1..]);
      i := i + 1;
      assert a[..i] == [a[0]] + a[1..][..i - 1] && b[..i] == [b[0]] + b[1..][..i - 1];
    }
  }

  lemma {:induction false} OnesAreLargest(m: seq<bv8>, ones: seq<bv8>)
    requires |m| == |ones| && forall i :: 0 <= i < |ones| ==> ones[i] == 0xFF
    ensures Num(m) <= Num(ones)
  {
    if m != [] {
      var n := |m| - 1;
      OnesAreLargest(m[..n], ones[..n]);
      assert ones[n] as int == 255;
    }
  }

  /** The broadcast address orders after every other address. */
  lemma BroadcastIsLargest(m: Mac)
    ensures Num(m) <= Num(BROADCAST)
    ensures m != BROADCAST ==> Num(m) < Num(BROADCAST)
  {
    OnesAreLargest(m, BROADCAST);
    if Num(m) == Num(BROADCAST) {
      NumInjective(m, BROADCAST);
    }
  }
}
