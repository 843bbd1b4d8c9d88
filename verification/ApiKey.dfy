/** The API key check (pkg/middleware/api_key.go): the provided key is cut or padded to
    the secret's length, both lengths are appended as 8 big-endian bytes, and the two
    buffers are compared in one pass. */
module ApiKey {
  import opened Text

  const MIN_SECRET: nat := 32

  function Pow256(k: nat): nat { if k == 0 then 1 else 256 * Pow256(k - 1) }

  /** The k low bytes of n, most significant first. */
  function BigEndian(n: nat, k: nat): (b: seq<Byte>)
    ensures |b| == k
  {
    if k == 0 then [] else BigEndian(n / 256, k - 1) + [n % 256]
  }

  function Value(b: seq<int>): int {
    if b == [] then 0 else 256 * Value(b[..|b| - 1]) + b[|b| - 1]
  }

  lemma {:induction false} BigEndianValue(n: nat, k: nat)
    requires n < Pow256(k)
    ensures Value(BigEndian(n, k)) == n
  {
    if k > 0 {
      BigEndianValue(n / 256, k - 1);
      var b := BigEndian(n, k);
      assert b[..|b| - 1] == BigEndian(n / 256, k - 1);
    }
  }

  /** crypto/subtle: 1 for equal slices, 0 otherwise. */
  function ConstantTimeCompare(x: seq<Byte>, y: seq<Byte>): int { if x == y then 1 else 0 }

  /** Go's copy: as many bytes as both have. */
  method Copy(dst: array<Byte>, src: seq<Byte>)
    modifies dst
    ensures forall i :: 0 <= i < dst.Length ==> dst[i] == if i < |src| then src[i] else old(dst[i])
  {
    var i := 0;
    while i < dst.Length && i < |src|
      invariant 0 <= i <= dst.Length && i <= |src|
      invariant forall j :: 0 <= j < dst.Length ==> dst[j] == if j < i then src[j] else old(dst[j])
    {
      dst[i] := src[i];
      i := i + 1;
    }
  }

  /** Lengths are Go ints, so below 2^64. */
  method ConstantTimeAPIKeyEqual(provided: seq<Byte>, secret: seq<Byte>) returns (equal: bool)
    requires |provided| < Pow256(8) && |secret| < Pow256(8)
    ensures equal <==> secret != [] && provided == secret
  {
    if |secret| == 0 {
      return false;
    }
    var n := |secret|;
    var candidate := new Byte[n](_ => 0);
    if |provided| >= n {
      Copy(candidate, provided[..n]);
    } else {
      Copy(candidate, provided);
    }
    var la := BigEndian(|provided|, 8);
    var lb := BigEndian(n, 8);
    var left := candidate[..] + la;
    var right := secret + lb;
    PaddedExact(provided, secret, candidate[..]);
    return ConstantTimeCompare(left, right) == 1;
  }

  /** Cutting or zero-padding loses nothing that the length bytes do not bring back. */
  lemma PaddedExact(provided: seq<Byte>, secret: seq<Byte>, candidate: seq<Byte>)
    requires |provided| < Pow256(8) && |secret| < Pow256(8) && |candidate| == |secret|
    requires forall i :: 0 <= i < |candidate| ==> candidate[i] == if i < |provided| then provided[i] else 0
    ensures candidate + BigEndian(|provided|, 8) == secret + BigEndian(|secret|, 8) <==> provided == secret
  {
    var (left, right) := (candidate + BigEndian(|provided|, 8), secret + BigEndian(|secret|, 8));
    if left == right {
      assert candidate == left[..|secret|] == right[..|secret|] == secret;
      assert BigEndian(|provided|, 8) == left[|secret|..] == right[|secret|..] == BigEndian(|secret|, 8);
      BigEndianValue(|provided|, 8);
      BigEndianValue(|secret|, 8);
    }
    if provided == secret {
      assert candidate == secret;
    }
  }

  datatype Verdict = Passed | Unauthorized | NotConfigured

  /** The process-wide secret and the middleware that reads it. */
  class Gate {
    var secret: seq<Byte>

    constructor ()
      ensures secret == []
    {
      secret := [];
    }

    method SetAPISecretKey(key: seq<Byte>) returns (ok: bool)
      modifies this
      ensures ok <==> |key| >= 32
      ensures secret == if ok then key else old(secret)
    {
      if |key| < MIN_SECRET {
        return false;
      }
      secret := key;
      return true;
    }

    method APIKeyAuth(header: seq<Byte>) returns (verdict: Verdict)
      requires |header| < Pow256(8) && |secret| < Pow256(8)
      ensures verdict == NotConfigured <==> |secret| < 32
      ensures verdict == Passed <==> |secret| >= 32 && header == secret
    {
      if |secret| < MIN_SECRET {
        return NotConfigured;
      }
      var equal := ConstantTimeAPIKeyEqual(header, secret);
      return if equal then Passed else Unauthorized;
    }
  }
}
