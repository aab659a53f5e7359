/** The law the codec is for. */
module LzoRoundTrip {
  import opened Bits
  import opened LzoFormat
  import C = LzoCompress
  import D = LzoDecompress

  /** Compressing and decompressing returns the input, for every input and every initial
      dictionary; the checking decoder refuses exactly when the text does not fit. */
  method RoundTrip(input: seq<byte>, dict: array<int>, safe: bool, cap: nat)
    returns (code: D.Code, text: seq<byte>)
    requires dict.Length == C.D_SIZE
    modifies dict
    ensures code == D.Ok <==> !safe || |input| <= cap
    ensures code == D.Ok ==> text == input
    ensures code != D.Ok ==> code == D.OutputOverrun && text <= input && |text| <= cap
  {
    var out;
    ghost var s;
    out, s := C.Compress(input, dict);
    code, text := D.Decompress(out, safe, cap, s);
  }
}
