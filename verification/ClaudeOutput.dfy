/** internal/controller/claudetask_controller.go: finding Claude's JSON result in exec output. */
module ClaudeOutput {
  import opened Json
  import opened Options

  /** The `claudeResult` struct; int64 fields are int, float64 is real. */
  datatype ClaudeResult = ClaudeResult(
    result: string,
    isError: bool,
    totalCostUSD: real,
    durationMs: int,
    inputTokens: int,
    outputTokens: int,
    cacheReadInputTokens: int,
    cacheCreationInputTokens: int)

  const ZERO_RESULT := ClaudeResult("", false, 0.0, 0, 0, 0, 0, 0)

  /** json.Unmarshal into a claudeResult: `None` is an error. */
  type Decoder = string -> Option<ClaudeResult>

  /** What the JSON library guarantees here: only JSON texts decode without an error. */
  ghost predicate DecodesOnlyJson(decode: Decoder) {
    forall s :: decode(s).Some? ==> JsonText(s)
  }

  /** A brace at `i` from which the rest of `output` decodes. */
  predicate Decodes(output: string, decode: Decoder, i: nat)
    requires i < |output|
  {
    output[i] == '{' && decode(output[i..]).Some?
  }

  /** The last position below `n` from which the output decodes, or -1. */
  function LastDecodable(output: string, decode: Decoder, n: nat): (i: int)
    requires n <= |output|
    ensures -1 <= i < n
    ensures i >= 0 ==> Decodes(output, decode, i)
    ensures forall j :: i < j < n ==> !Decodes(output, decode, j)
  {
    if n == 0 then -1
    else if Decodes(output, decode, n - 1) then n - 1
    else LastDecodable(output, decode, n - 1)
  }

  /** The result struct and the text in which markers are looked for. */
  function Parsed(output: string, decode: Decoder): (ClaudeResult, string) {
    var i := LastDecodable(output, decode, |output|);
    if i < 0 then (ZERO_RESULT, output)
    else
      var cr := decode(output[i..]).value;
      (cr, cr.result)
  }

  /** strings.LastIndex(output, "{"). */
  method LastBrace(output: string) returns (i: int)
    ensures -1 <= i < |output|
    ensures i >= 0 ==> output[i] == '{'
    ensures forall j :: i < j < |output| ==> output[j] != '{'
  {
    i := |output| - 1;
    while i >= 0 && output[i] != '{'
      invariant -1 <= i < |output|
      invariant forall j :: i < j < |output| ==> output[j] != '{'
    {
      i := i - 1;
    }
  }

  /** parseClaudeOutput: try every `{`, the last one first. */
  method ParseClaudeOutput(output: string, decode: Decoder) returns (cr: ClaudeResult, text: string)
    ensures (cr, text) == Parsed(output, decode)
  {
    var i := LastBrace(output);
    if i == -1 {
      assert forall j :: 0 <= j < |output| ==> !Decodes(output, decode, j);
      return ZERO_RESULT, output;
    }
    while i >= 0
      invariant -1 <= i < |output|
      invariant forall j :: i < j < |output| ==> !Decodes(output, decode, j)
    {
      if output[i] == '{' {
        var candidate := decode(output[i..]);
        if candidate.Some? {
          LastDecodableIs(output, decode, |output|, i);
          return candidate.value, candidate.value.result;
        }
      }
      i := i - 1;
    }
    return ZERO_RESULT, output;
  }

  lemma {:induction false} LastDecodableIs(output: string, decode: Decoder, n: nat, i: nat)
    requires i < n <= |output| && Decodes(output, decode, i)
    requires forall j :: i < j < n ==> !Decodes(output, decode, j)
    ensures LastDecodable(output, decode, n) == i
  {
    if n - 1 != i {
      LastDecodableIs(output, decode, n - 1, i);
    }
  }

  /** Whatever precedes Claude's JSON object, that object is what is read: no brace of its own,
      in a nested object or inside a string literal, is mistaken for its start. */
  lemma ReadsLastObject(prefix: string, j: string, decode: Decoder)
    requires DecodesOnlyJson(decode)
    requires j != "" && j[0] == '{' && decode(j).Some?
    ensures Parsed(prefix + j, decode) == (decode(j).value, decode(j).value.result)
  {
    var output := prefix + j;
    assert output[|prefix|..] == j;
    forall k | |prefix| < k < |output| ensures !Decodes(output, decode, k) {
      if output[k] == '{' {
        assert output[k..] == j[k - |prefix|..];
        InnerBrace(j, k - |prefix|);
      }
    }
    LastDecodableIs(output, decode, |output|, |prefix|);
  }

  /** For every output: the last brace from which the rest decodes is what is read, and if there is none
      the raw output is kept for the markers, with a result that bills nothing. */
  lemma ReadsLastDecodable(output: string, decode: Decoder)
    ensures forall i :: 0 <= i < |output| && output[i] == '{' && decode(output[i..]).Some?
                        && (forall j :: i < j < |output| && output[j] == '{' ==> decode(output[j..]).None?) ==>
              Parsed(output, decode) == (decode(output[i..]).value, decode(output[i..]).value.result)
    ensures (forall j :: 0 <= j < |output| && output[j] == '{' ==> decode(output[j..]).None?) ==>
              Parsed(output, decode) == (ClaudeResult("", false, 0.0, 0, 0, 0, 0, 0), output)
  {
    forall i | 0 <= i < |output| && output[i] == '{' && decode(output[i..]).Some?
               && (forall j :: i < j < |output| && output[j] == '{' ==> decode(output[j..]).None?)
      ensures Parsed(output, decode) == (decode(output[i..]).value, decode(output[i..]).value.result)
    {
      LastDecodableIs(output, decode, |output|, i);
    }
  }

  /** Output that goes on after the object, so that its last visible character is not a closing
      brace, is never read as a result: the raw text is kept for the markers and nothing is billed. */
  lemma TrailingTextHidesResult(output: string, n: nat, decode: Decoder)
    requires DecodesOnlyJson(decode)
    requires 0 < n <= |output| && !IsWs(output[n - 1]) && output[n - 1] != '}' && Ws(output[n..])
    ensures Parsed(output, decode) == (ZERO_RESULT, output)
  {
    var i := LastDecodable(output, decode, |output|);
    if i >= 0 {
      var m := ObjectEnds(output[i..]);
      assert output[i + m..] == output[i..][m..];
      LastVisible(output, n, i + m);
    }
  }
}
