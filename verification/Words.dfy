/** Little-endian words. */
module Words {
  /** The n bytes of a word, least significant first. */
  function Bytes(w: nat, n: nat): (b: seq<nat>)
    ensures |b| == n
  {
    if n == 0 then [] else [w % 256] + Bytes(w / 256, n - 1)
  }

  function Value(b: seq<nat>): nat {
    if b == [] then 0 else b[0] + 256 * Value(b[1..])
  }

  function Power(n: nat): nat {
    if n == 0 then 1 else 256 * Power(n - 1)
  }

  lemma {:induction false} ValueOfBytes(w: nat, n: nat)
    requires w < Power(n)
    ensures Value(Bytes(w, n)) == w
    decreases n
  {
    if n > 0 {
      ValueOfBytes(w / 256, n - 1);
      assert Bytes(w, n)[1..] == Bytes(w / 256, n - 1);
    }
  }

  /** n bytes never mean more than an n-byte word can hold. */
  lemma {:induction false} ValueBound(b: seq<nat>)
    requires forall i :: 0 <= i < |b| ==> b[i] < 256
    ensures Value(b) < Power(|b|)
    decreases |b|
  {
    if b != [] {
      ValueBound(b[1..]);
    }
  }
}
