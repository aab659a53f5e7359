/** Blocks as bytes, and cipher block chaining (section 6.2 of NIST SP 800-38A). */
module AesChaining {
  import opened AesSpec

  function ColAt(b: bytes, i: nat): Col
    requires i + 4 <= |b|
  {
    Col(b[i], b[i + 1], b[i + 2], b[i + 3])
  }

  function BlockAt(b: bytes, i: nat): State
    requires i + 16 <= |b|
  {
    State(ColAt(b, i), ColAt(b, i + 4), ColAt(b, i + 8), ColAt(b, i + 12))
  }

  function Blocks(b: bytes, n: nat): (s: seq<State>)
    requires 16 * n <= |b|
    ensures |s| == n
  {
    seq(n, i requires 0 <= i < n => BlockAt(b, 16 * i))
  }

  function CbcEnc(w: seq<Col>, nr: nat, iv: State, ps: seq<State>): (cs: seq<State>)
    requires IsSchedule(w, nr)
    ensures |cs| == |ps|
  {
    if ps == [] then [] else
      var n := |ps| - 1;
      var cs := CbcEnc(w, nr, iv, ps[..n]);
      cs + [Cipher(w, nr, AddKey(if n == 0 then iv else cs[n - 1], ps[n]))]
  }

  function CbcDec(w: seq<Col>, nr: nat, iv: State, cs: seq<State>): (ps: seq<State>)
    requires IsSchedule(w, nr)
    ensures |ps| == |cs|
  {
    seq(|cs|, j requires 0 <= j < |cs| => AddKey(InvCipher(w, nr, cs[j]), if j == 0 then iv else cs[j - 1]))
  }

  /** Each block is encrypted together with the encrypted one before it, the first with the initial vector. */
  lemma {:induction false} ChainedAt(w: seq<Col>, nr: nat, iv: State, ps: seq<State>, i: nat)
    requires IsSchedule(w, nr) && i < |ps|
    ensures var cs := CbcEnc(w, nr, iv, ps); cs[i] == Cipher(w, nr, AddKey(if i == 0 then iv else cs[i - 1], ps[i]))
    decreases |ps|
  {
    hide Cipher, AddKey;
    if i < |ps| - 1 { ChainedAt(w, nr, iv, ps[..|ps| - 1], i); }
  }

  lemma AddBack(s: State, k: State)
    ensures AddKey(AddKey(k, s), k) == s
  {
    AddKeyTurn(k, s);
    AddTwice(s, k);
    hide AddKey;
  }

  lemma AddKeyTurn(k: State, s: State)
    ensures AddKey(k, s) == AddKey(s, k)
  {
  }

  /** Decryption inverts encryption, for any schedule, any initial vector and any number of blocks. */
  lemma {:induction false} CbcRoundTrip(w: seq<Col>, nr: nat, iv: State, ps: seq<State>)
    requires IsSchedule(w, nr)
    ensures CbcDec(w, nr, iv, CbcEnc(w, nr, iv, ps)) == ps
    decreases |ps|
  {
    hide AddKey, InvCipher, Cipher;
    if ps != [] {
      var n := |ps| - 1;
      CbcRoundTrip(w, nr, iv, ps[..n]);
      var cs := CbcEnc(w, nr, iv, ps[..n]);
      var before := if n == 0 then iv else cs[n - 1];
      InvCipherOk(w, nr, AddKey(before, ps[n]));
      AddBack(ps[n], before);
      CbcDecSnoc(w, nr, iv, cs, Cipher(w, nr, AddKey(before, ps[n])));
      assert ps == ps[..n] + [ps[n]];
    }
  }

  lemma CbcDecSnoc(w: seq<Col>, nr: nat, iv: State, cs: seq<State>, c: State)
    requires IsSchedule(w, nr)
    ensures CbcDec(w, nr, iv, cs + [c]) ==
            CbcDec(w, nr, iv, cs) + [AddKey(InvCipher(w, nr, c), if cs == [] then iv else cs[|cs| - 1])]
  {
    hide AddKey, InvCipher;
  }

  /** Equal blocks are equal bytes. */
  lemma BlocksAreBytes(a: bytes, b: bytes, n: nat)
    requires 16 * n <= |a| && 16 * n <= |b| && Blocks(a, n) == Blocks(b, n)
    ensures a[..16 * n] == b[..16 * n]
  {
    forall k | 0 <= k < 16 * n ensures a[k] == b[k] {
      var i, j := k / 16, k % 16;
      assert BlockAt(a, 16 * i) == Blocks(a, n)[i] == Blocks(b, n)[i] == BlockAt(b, 16 * i);
      assert 16 * i + j == k;
    }
  }
}
