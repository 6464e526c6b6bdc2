/**
 * The deterministic part of `generateChartConfig` (app/actions.ts:265-295):
 * the completion model proposes a chart configuration, and the action then
 * gives the series named by `yKeys` the colours `hsl(var(--chart-1))`,
 * `hsl(var(--chart-2))`, ... in order, one `colors[key] = ...` per element.
 */
module ChartConfigGenerator {
  import opened JsText
  import opened JsValues

  const Context := "Failed to generate chart configuration"
  const TokenPrefix := "hsl(var(--chart-"
  const TokenSuffix := "))"

  /** A chart configuration as the completion model returns it. Fields of the
      configuration schema other than those the action reads are kept, as
      JSON, in `otherFields`. */
  datatype ChartConfig = ChartConfig(
    chartType: string,
    xKey: string,
    yKeys: seq<string>,
    colors: Option<map<string, string>>,
    otherFields: map<string, Json>)

  /** The colour of the series at 0-based position `index`. */
  function ColorToken(index: nat): (token: string)
    ensures |token| == |TokenPrefix| + |NatToString(index + 1)| + |TokenSuffix|
    ensures StartsWith(token, TokenPrefix) && EndsWith(token, TokenSuffix)
    ensures token[|TokenPrefix|..|token| - |TokenSuffix|] == NatToString(index + 1)
  {
    var token := TokenPrefix + NatToString(index + 1) + TokenSuffix;
    assert token[|TokenPrefix|..|token| - |TokenSuffix|] == NatToString(index + 1);
    token
  }

  /** Different positions get different colours. */
  lemma ColorTokenInjective(i: nat, j: nat)
    requires ColorToken(i) == ColorToken(j)
    ensures i == j
  {
    NatToStringInjective(i + 1, j + 1);
  }

  /** No later element of `keys` repeats the one at `i`. */
  predicate IsLastOccurrence(keys: seq<string>, i: nat)
    requires i < |keys|
  {
    forall j :: i < j < |keys| ==> keys[j] != keys[i]
  }

  /** The position of the last occurrence of `k` in `keys`. */
  function LastIndexOf(keys: seq<string>, k: string): (i: nat)
    requires k in keys
    ensures i < |keys| && keys[i] == k && IsLastOccurrence(keys, i)
  {
    if keys[|keys| - 1] == k then |keys| - 1
    else
      assert k in keys[..|keys| - 1] by {
        var p :| 0 <= p < |keys| && keys[p] == k;
        assert keys[..|keys| - 1][p] == k;
      }
      LastIndexOf(keys[..|keys| - 1], k)
  }

  /** The `colors` record after the `forEach` has visited every element of `keys`. */
  function ColorsFor(keys: seq<string>): map<string, string>
  {
    if keys == [] then map[]
    else ColorsFor(keys[..|keys| - 1])[keys[|keys| - 1] := ColorToken(|keys| - 1)]
  }

  /** Exactly the keys named in `keys` get a colour. */
  lemma {:induction false} ColorsForKeys(keys: seq<string>)
    ensures ColorsFor(keys).Keys == set k | k in keys
  {
    if keys != [] {
      var init := keys[..|keys| - 1];
      ColorsForKeys(init);
      assert keys == init + [keys[|keys| - 1]];
      assert (set k | k in keys) == (set k | k in init) + {keys[|keys| - 1]};
    }
  }

  /** Each key keeps the colour of its last position: for a duplicated key the
      last index wins. */
  lemma {:induction false} ColorsForLastWins(keys: seq<string>, i: nat)
    requires i < |keys| && IsLastOccurrence(keys, i)
    ensures keys[i] in ColorsFor(keys) && ColorsFor(keys)[keys[i]] == ColorToken(i)
  {
    if i < |keys| - 1 {
      var init := keys[..|keys| - 1];
      assert init[i] == keys[i];
      assert IsLastOccurrence(init, i);
      ColorsForLastWins(init, i);
    }
  }

  /** When no key repeats, the key at position `i` gets the `i + 1`-th colour. */
  lemma {:induction false} ColorsForDistinctKeys(keys: seq<string>, i: nat)
    requires forall p, q :: 0 <= p < q < |keys| ==> keys[p] != keys[q]
    requires i < |keys|
    ensures keys[i] in ColorsFor(keys) && ColorsFor(keys)[keys[i]] == ColorToken(i)
  {
    ColorsForLastWins(keys, i);
  }

  /** Different series never share a colour. */
  lemma ColorsForInjective(keys: seq<string>, a: string, b: string)
    requires a in keys && b in keys && a != b
    ensures a in ColorsFor(keys) && b in ColorsFor(keys)
    ensures ColorsFor(keys)[a] != ColorsFor(keys)[b]
  {
    var i, j := LastIndexOf(keys, a), LastIndexOf(keys, b);
    ColorsForLastWins(keys, i);
    ColorsForLastWins(keys, j);
    if ColorToken(i) == ColorToken(j) {
      ColorTokenInjective(i, j);
    }
  }

  /** The `forEach` loop that fills `colors`. */
  method AssignColors(yKeys: seq<string>) returns (colors: map<string, string>)
    ensures colors == ColorsFor(yKeys)
    ensures colors.Keys == set k | k in yKeys
    ensures forall k :: k in yKeys ==> colors[k] == ColorToken(LastIndexOf(yKeys, k))
  {
    colors := map[];
    var index := 0;
    while index < |yKeys|
      invariant index <= |yKeys|
      invariant colors == ColorsFor(yKeys[..index])
    {
      assert yKeys[..index + 1][..index] == yKeys[..index];
      colors := colors[yKeys[index] := ColorToken(index)];
      index := index + 1;
    }
    assert yKeys[..index] == yKeys;
    ColorsForKeys(yKeys);
    forall k | k in yKeys
      ensures colors[k] == ColorToken(LastIndexOf(yKeys, k))
    {
      ColorsForLastWins(yKeys, LastIndexOf(yKeys, k));
    }
  }

  /** `generateChartConfig` after its completion call returned `completion`:
      the configuration comes back as it was, with `colors` added or replaced. */
  method GenerateChartConfig(completion: Completion<ChartConfig>) returns (r: Result<ChartConfig>)
    ensures completion.CompletionFailed? ==> r == Err(WrapFailure(Context, completion.exception))
    ensures completion.Generated? ==> r.Ok?
    ensures r.Ok? ==> completion.Generated? && r.value.(colors := completion.output.colors) == completion.output
    ensures r.Ok? ==> r.value.colors.Some? && r.value.colors.value.Keys == set k | k in r.value.yKeys
    ensures r.Ok? ==> forall k :: k in r.value.yKeys ==>
      r.value.colors.value[k] == ColorToken(LastIndexOf(r.value.yKeys, k))
  {
    if completion.CompletionFailed? {
      return Err(WrapFailure(Context, completion.exception));
    }
    var config := completion.output;
    var colors := AssignColors(config.yKeys);
    return Ok(config.(colors := Some(colors)));
  }
}
