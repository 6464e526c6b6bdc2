/**
 * The deterministic part of `generateQuery` (app/actions.ts:145-226): the
 * completion model's `query` text is trimmed, given a `LIMIT 100` when its
 * lower-cased text does not mention "limit", and rejected unless its
 * lower-cased text starts with "select". Every failure inside the action is
 * rethrown as "Failed to generate query: ...".
 */
module QueryGenerator {
  import opened JsText
  import opened JsValues

  const Context := "Failed to generate query"
  const SelectRequired := "Generated query must start with SELECT"
  const LimitClause := " LIMIT 100;"

  /** The regular expression `/;?\s*$/` matches the suffix of `s` from `i`. */
  predicate TerminatorAt(s: string, i: nat)
    requires i <= |s|
  {
    AllWhitespace(s[i..]) || (i < |s| && s[i] == ';' && AllWhitespace(s[i + 1..]))
  }

  /** Where a regular-expression search started at `from` finds `/;?\s*$/`:
      the leftmost position at or after `from` from which it matches. */
  function LeftmostTerminator(s: string, from: nat): (i: nat)
    requires from <= |s|
    ensures from <= i <= |s| && TerminatorAt(s, i)
    ensures forall j :: from <= j < i ==> !TerminatorAt(s, j)
    decreases |s| - from
  {
    if TerminatorAt(s, from) then from else LeftmostTerminator(s, from + 1)
  }

  /** `s.replace(/;?\s*$/, ' LIMIT 100;')`: the regular expression is not
      global, so only its leftmost match, which always runs to the end of `s`,
      is replaced. */
  function ReplaceTerminator(s: string): (r: string)
    ensures r == s[..LeftmostTerminator(s, 0)] + LimitClause
    ensures EndsWith(r, LimitClause)
    ensures |r| - |LimitClause| <= |s| && r[..|r| - |LimitClause|] == s[..|r| - |LimitClause|]
  {
    var i := LeftmostTerminator(s, 0);
    var r := s[..i] + LimitClause;
    assert r[..|r| - |LimitClause|] == s[..i];
    r
  }

  /** `t` with one trailing `;` dropped, if it has one. */
  function WithoutFinalSemicolon(t: string): string {
    if EndsWith(t, ";") then t[..|t| - 1] else t
  }

  /** On text that does not end in whitespace, the replacement drops at most
      one trailing `;` and appends the LIMIT clause. */
  lemma TrimmedTerminatorReplace(t: string)
    requires t == [] || !IsWhitespace(t[|t| - 1])
    ensures ReplaceTerminator(t) == WithoutFinalSemicolon(t) + LimitClause
  {
    var target := if EndsWith(t, ";") then |t| - 1 else |t|;
    assert t[target..] == [] || t[target + 1..] == [];
    assert TerminatorAt(t, target);
    forall j | 0 <= j < target
      ensures !TerminatorAt(t, j)
    {
      assert t[j..][|t| - 1 - j] == t[|t| - 1];
      if j + 1 <= |t| - 1 {
        assert t[j + 1..][|t| - 2 - j] == t[|t| - 1];
      }
    }
    assert LeftmostTerminator(t, 0) == target;
  }

  /** The lower-cased text mentions "limit" and starts with "select". */
  predicate IsLimitedSelect(q: string) {
    StartsWith(Lower(q), "select") && Contains(Lower(q), "limit")
  }

  /** Appending the LIMIT clause always makes the lower-cased text mention "limit". */
  lemma LimitClauseMentionsLimit(p: string)
    ensures Contains(Lower(p + LimitClause), "limit")
  {
    LowerAppend(p, LimitClause);
    var q := Lower(p + LimitClause);
    assert q[|p| + 1..|p| + 6] == "limit";
    assert OccursAt(q, "limit", |p| + 1);
  }

  /** Appending the LIMIT clause (after dropping a final `;`) neither creates
      nor destroys a leading "select": the later SELECT check sees the same
      answer as it would on the trimmed text. */
  lemma {:induction false} InjectionKeepsSelectTest(t: string)
    ensures StartsWith(Lower(WithoutFinalSemicolon(t) + LimitClause), "select")
        <==> StartsWith(Lower(t), "select")
  {
    var p := WithoutFinalSemicolon(t);
    var q := p + LimitClause;
    assert StartsWith(Lower(q), "select") ==> forall k :: 0 <= k < 6 ==> Lower(q)[k] == "select"[k];
    assert StartsWith(Lower(t), "select") ==> forall k :: 0 <= k < 6 ==> Lower(t)[k] == "select"[k];
    if |p| >= 6 {
      assert q[..6] == p[..6] == t[..6];
      assert Lower(q)[..6] == Lower(t)[..6];
    } else {
      assert Lower(q)[|p|] == ' ';
      if |t| >= 6 {
        assert |t| == 6 && t[5] == ';';
        assert Lower(t)[5] == ';';
      }
    }
  }

  /** A column named `credit_limit` anywhere in a query makes it pass the
      "limit" test, so no clause is injected into it, whether or not it has a
      LIMIT clause. */
  lemma ColumnNameSuppressesLimit(p: string, s: string)
    ensures Contains(Lower(p + "credit_limit" + s), "limit")
  {
    var column := "credit_limit";
    LowerAppend(p + column, s);
    LowerAppend(p, column);
    var q := Lower(p + column + s);
    assert forall k :: 7 <= k < 12 ==> Lower(column)[k] == LowerChar(column[k]) == column[k];
    assert q[|p| + 7..|p| + 12] == Lower(column)[7..12] == "limit";
    assert OccursAt(q, "limit", |p| + 7);
  }

  /** `generateQuery` after its completion call returned `completion`. */
  method GenerateQuery(completion: Completion<string>) returns (r: Result<string>)
    ensures completion.CompletionFailed? ==> r == Err(WrapFailure(Context, completion.exception))
    ensures completion.Generated? ==>
      (r.Ok? <==> StartsWith(Lower(Trim(completion.output)), "select"))
    ensures completion.Generated? && r.Err? ==> r.message == Context + ": " + SelectRequired
    ensures r.Ok? ==> IsLimitedSelect(r.value)
    ensures r.Ok? && Contains(Lower(Trim(completion.output)), "limit") ==>
      r.value == Trim(completion.output)
    ensures r.Ok? && !Contains(Lower(Trim(completion.output)), "limit") ==>
      r.value == WithoutFinalSemicolon(Trim(completion.output)) + LimitClause
  {
    if completion.CompletionFailed? {
      return Err(WrapFailure(Context, completion.exception));
    }
    var query := Trim(completion.output);
    ghost var trimmed := query;
    if !Contains(Lower(query), "limit") {
      query := ReplaceTerminator(query);
      TrimmedTerminatorReplace(trimmed);
      InjectionKeepsSelectTest(trimmed);
      LimitClauseMentionsLimit(WithoutFinalSemicolon(trimmed));
    }
    if !StartsWith(Lower(query), "select") {
      return Err(WrapFailure(Context, ErrorInstance(SelectRequired)));
    }
    return Ok(query);
  }
}
