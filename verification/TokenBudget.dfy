/** Greedy selection of ranked evidence under a token budget. */
module TokenBudget {
  import opened Prelude
  import opened Text

  datatype Evidence = Evidence(title: string, description: string, reference: string,
                               correlationId: Option<string>, tokenEstimate: nat)

  datatype Budget = Budget(maxTokens: int, reservedTokens: int, evidenceTokens: nat, totalEstimatedTokens: int,
                           includedCount: nat, omittedCount: nat, truncated: bool)

  /** Four characters to a token, rounded up, after stripping. */
  function EstimateTokens(value: string): nat {
    var n := |Strip(value)|;
    if n == 0 then 0 else (n + 3) / 4
  }

  /** The least number of four-character tokens that covers the stripped text. */
  lemma EstimateMeaning(value: string)
    ensures var n, t := |Strip(value)|, EstimateTokens(value); 4 * t >= n && (t > 0 ==> 4 * (t - 1) < n)
  {
  }

  function JoinNonEmpty(parts: seq<string>): string {
    if parts == [] then ""
    else if parts[0] == "" then JoinNonEmpty(parts[1..])
    else
      var rest := JoinNonEmpty(parts[1..]);
      if forall p :: p in parts[1..] ==> p == "" then parts[0] else parts[0] + " " + rest
  }

  /** The non-empty parts, with one space between any two. */
  lemma {:induction false} JoinMeaning(a: seq<string>, b: seq<string>)
    ensures forall p :: JoinNonEmpty([p]) == p
    ensures JoinNonEmpty(a + b) == var left, right := JoinNonEmpty(a), JoinNonEmpty(b);
                                   if left == "" then right else if right == "" then left else left + " " + right
    decreases |a|
  {
    forall p ensures JoinNonEmpty([p]) == p {
      assert [p][1..] == [];
    }
    if a == [] {
      assert a + b == b;
    } else {
      var rest := a[1..];
      assert (a + b)[1..] == rest + b;
      JoinMeaning(rest, b);
      JoinedNothing(rest);
      JoinedNothing(rest + b);
      JoinedNothing(b);
      if a[0] != "" && JoinNonEmpty(rest) != "" && JoinNonEmpty(b) != "" {
        assert a[0] + " " + (JoinNonEmpty(rest) + " " + JoinNonEmpty(b)) == a[0] + " " + JoinNonEmpty(rest) + " " + JoinNonEmpty(b);
      }
    }
  }

  lemma {:induction false} JoinedNothing(parts: seq<string>)
    ensures JoinNonEmpty(parts) == "" <==> forall p :: p in parts ==> p == ""
  {
    if parts == [] {
    } else {
      var rest := parts[1..];
      JoinedNothing(rest);
      forall p ensures p in parts <==> p == parts[0] || p in rest {
        assert parts == [parts[0]] + rest;
      }
      if parts[0] != "" {
        assert |JoinNonEmpty(parts)| >= |parts[0]| > 0 && parts[0] in parts;
      }
    }
  }

  function EstimateEvidenceTokens(e: Evidence): nat {
    var id := if e.correlationId.Some? then e.correlationId.value else "";
    EstimateTokens(JoinNonEmpty([e.title, e.description, e.reference, id]))
  }

  /** Title, description, reference and correlation id count, with a space between any two. */
  lemma EvidenceMeaning(e: Evidence)
    requires e.title != "" && e.description != "" && e.reference != "" && e.correlationId.Some? && e.correlationId.value != ""
    requires Stripped(e.title) && Stripped(e.correlationId.value)
    ensures var n, t := |e.title| + |e.description| + |e.reference| + |e.correlationId.value| + 3, EstimateEvidenceTokens(e);
            4 * (t - 1) < n <= 4 * t
  {
    var id := e.correlationId.value;
    var text := e.title + " " + (e.description + " " + (e.reference + " " + id));
    assert [e.title, e.description, e.reference, id] == [e.title] + ([e.description] + ([e.reference] + [id]));
    JoinMeaning([e.title], [e.description] + ([e.reference] + [id]));
    JoinMeaning([e.description], [e.reference] + [id]);
    JoinMeaning([e.reference], [id]);
    assert text[0] == e.title[0] && text[|text| - 1] == id[|id| - 1];
    StripOfStripped(text);
  }

  function Costs(evidence: seq<Evidence>): seq<nat> {
    seq(|evidence|, i requires 0 <= i < |evidence| => EstimateEvidenceTokens(evidence[i]))
  }

  // ----- Selections: one flag per item

  function Cost(costs: seq<nat>, flags: seq<bool>): nat
    requires |costs| == |flags|
  {
    if costs == [] then 0
    else
      var n := |costs| - 1;
      Cost(costs[..n], flags[..n]) + if flags[n] then costs[n] else 0
  }

  /** Whether each item in turn still fits beside those taken before it. */
  function Greedy(costs: seq<nat>, available: nat): (flags: seq<bool>)
    ensures |flags| == |costs|
  {
    if costs == [] then []
    else
      var n := |costs| - 1;
      var before := Greedy(costs[..n], available);
      before + [Cost(costs[..n], before) + costs[n] <= available]
  }

  function Select<T>(items: seq<T>, flags: seq<bool>): seq<T>
    requires |items| == |flags|
  {
    if items == [] then []
    else
      var n := |items| - 1;
      Select(items[..n], flags[..n]) + if flags[n] then [items[n]] else []
  }

  lemma {:induction false} CostGrows(costs: seq<nat>, flags: seq<bool>, k: nat)
    requires |costs| == |flags| && k <= |costs|
    ensures Cost(costs[..k], flags[..k]) <= Cost(costs, flags)
  {
    if k < |costs| {
      var n := |costs| - 1;
      assert costs[..n][..k] == costs[..k] && flags[..n][..k] == flags[..k];
      CostGrows(costs[..n], flags[..n], k);
    } else {
      assert costs[..k] == costs && flags[..k] == flags;
    }
  }

  lemma {:induction false} GreedyPrefix(costs: seq<nat>, available: nat, k: nat)
    requires k <= |costs|
    ensures Greedy(costs, available)[..k] == Greedy(costs[..k], available)
  {
    if k < |costs| {
      var n := |costs| - 1;
      assert costs[..n][..k] == costs[..k];
      GreedyPrefix(costs[..n], available, k);
    } else {
      assert costs[..k] == costs;
    }
  }

  lemma {:induction false} GreedyFits(costs: seq<nat>, available: nat)
    ensures Cost(costs, Greedy(costs, available)) <= available
  {
    if costs == [] {
    } else {
      var n := |costs| - 1;
      GreedyFits(costs[..n], available);
      assert Greedy(costs, available)[..n] == Greedy(costs[..n], available);
    }
  }

  /** Item `k` is taken exactly when it fits beside the better-ranked items taken. */
  lemma TakenIffFits(costs: seq<nat>, available: nat, k: nat)
    requires k < |costs|
    ensures var flags := Greedy(costs, available);
            flags[k] <==> Cost(costs[..k], flags[..k]) + costs[k] <= available
  {
    GreedyPrefix(costs, available, k);
    GreedyPrefix(costs, available, k + 1);
    assert costs[..k + 1][..k] == costs[..k];
    assert Greedy(costs, available)[k] == Greedy(costs[..k + 1], available)[k];
  }

  /** No omitted item would still fit at the end. */
  lemma Maximal(costs: seq<nat>, available: nat, k: nat)
    requires k < |costs| && !Greedy(costs, available)[k]
    ensures Cost(costs, Greedy(costs, available)) + costs[k] > available
  {
    TakenIffFits(costs, available, k);
    CostGrows(costs, Greedy(costs, available), k);
  }

  /** Rank decides: an affordable selection that first differs from the greedy one at item `k`
      leaves out an item that the greedy one takes. */
  lemma RankDecides(costs: seq<nat>, available: nat, other: seq<bool>, k: nat)
    requires |other| == |costs| && Cost(costs, other) <= available
    requires k < |costs| && other[..k] == Greedy(costs, available)[..k] && other[k] != Greedy(costs, available)[k]
    ensures Greedy(costs, available)[k] && !other[k]
  {
    TakenIffFits(costs, available, k);
    assert costs[..k + 1][..k] == costs[..k] && other[..k + 1][..k] == other[..k];
    CostGrows(costs, other, k + 1);
  }

  /** The positions a selection takes, in order. */
  function Positions(flags: seq<bool>): seq<nat> {
    if flags == [] then []
    else
      var n := |flags| - 1;
      Positions(flags[..n]) + if flags[n] then [n] else []
  }

  lemma {:induction false} PositionsMembers(flags: seq<bool>)
    ensures forall k: nat :: k in Positions(flags) <==> k < |flags| && flags[k]
  {
    if flags == [] {
    } else {
      PositionsMembers(flags[..|flags| - 1]);
    }
  }

  lemma {:induction false} PositionsRise(flags: seq<bool>)
    ensures forall i, j :: 0 <= i < j < |Positions(flags)| ==> Positions(flags)[i] < Positions(flags)[j]
  {
    if flags == [] {
    } else {
      var n := |flags| - 1;
      PositionsRise(flags[..n]);
      PositionsMembers(flags[..n]);
      var earlier := Positions(flags[..n]);
      forall i | 0 <= i < |earlier| ensures earlier[i] < n {
        assert earlier[i] in earlier;
      }
      assert Positions(flags) == earlier + if flags[n] then [n] else [];
      hide Positions;
    }
  }

  /** What is selected stays in rank order: item by item, the items at the flagged positions. */
  lemma {:induction false} SelectKeepsRank<T>(items: seq<T>, flags: seq<bool>)
    requires |items| == |flags|
    ensures var at := Positions(flags);
            && |Select(items, flags)| == |at|
            && (forall i, j :: 0 <= i < j < |at| ==> at[i] < at[j])
            && (forall j :: 0 <= j < |at| ==> at[j] < |items| && flags[at[j]] && Select(items, flags)[j] == items[at[j]])
            && (forall k :: 0 <= k < |flags| && flags[k] ==> k in at)
  {
    PositionsRise(flags);
    PositionsMembers(flags);
    if items == [] {
    } else {
      var n := |items| - 1;
      SelectKeepsRank(items[..n], flags[..n]);
      var at := Positions(flags);
      forall j | 0 <= j < |at| ensures at[j] < |items| && flags[at[j]] && Select(items, flags)[j] == items[at[j]] {
        assert at[j] in at;
        if j < |Positions(flags[..n])| {
          assert items[..n][at[j]] == items[at[j]];
        }
      }
    }
  }

  // ----- The budget

  function Priced(e: Evidence): Evidence {
    e.(tokenEstimate := EstimateEvidenceTokens(e))
  }

  function PricedAll(evidence: seq<Evidence>): seq<Evidence> {
    seq(|evidence|, i requires 0 <= i < |evidence| => Priced(evidence[i]))
  }

  function Max(a: int, b: int): int {
    if a >= b then a else b
  }

  function SumEstimates(included: seq<Evidence>): nat {
    if included == [] then 0
    else
      var n := |included| - 1;
      SumEstimates(included[..n]) + included[n].tokenEstimate
  }

  lemma SumAppend(included: seq<Evidence>, e: Evidence)
    ensures SumEstimates(included + [e]) == SumEstimates(included) + e.tokenEstimate
  {
    assert (included + [e])[..|included|] == included;
  }

  /** The tokens of a selection are the sum of the estimates its items carry. */
  lemma {:induction false} SumIsCost(items: seq<Evidence>, costs: seq<nat>, flags: seq<bool>)
    requires |items| == |costs| == |flags| && forall i :: 0 <= i < |items| ==> items[i].tokenEstimate == costs[i]
    ensures SumEstimates(Select(items, flags)) == Cost(costs, flags)
    decreases |items|
  {
    hide SumEstimates;
    if items == [] {
      NothingSummed(Select(items, flags));
    } else {
      var n := |items| - 1;
      SumIsCost(items[..n], costs[..n], flags[..n]);
      var earlier := Select(items[..n], flags[..n]);
      SumAppend(earlier, items[n]);
      assert earlier + [] == earlier;
    }
  }

  lemma NothingSummed(included: seq<Evidence>)
    requires included == []
    ensures SumEstimates(included) == 0
  {
  }

  /** The evidence in rank order, each item kept exactly when it fits at its turn; the budget counts
      what was kept and what was left out. */
  method ApplyTokenBudget(evidence: seq<Evidence>, maxTokens: int, reservedTokens: int)
    returns (included: seq<Evidence>, budget: Budget)
    ensures var available := Max(0, maxTokens - reservedTokens);
            var flags := Greedy(Costs(evidence), available);
            && included == Select(PricedAll(evidence), flags)
            && budget.evidenceTokens == Cost(Costs(evidence), flags) <= available
    ensures budget.evidenceTokens == SumEstimates(included)
    ensures budget.maxTokens == maxTokens && budget.reservedTokens == reservedTokens
    ensures budget.totalEstimatedTokens == reservedTokens + budget.evidenceTokens
    ensures budget.includedCount == |included| && budget.includedCount + budget.omittedCount == |evidence|
    ensures budget.truncated <==> |included| < |evidence|
    ensures budget.totalEstimatedTokens <= maxTokens <==> reservedTokens <= maxTokens
  {
    var available := Max(0, maxTokens - reservedTokens);
    included := [];
    var evidenceTokens: nat := 0;
    for i := 0 to |evidence|
      invariant included == Select(PricedAll(evidence[..i]), Greedy(Costs(evidence[..i]), available))
      invariant evidenceTokens == Cost(Costs(evidence[..i]), Greedy(Costs(evidence[..i]), available)) <= available
      invariant |included| <= i
    {
      var e := evidence[i];
      var itemTokens := EstimateEvidenceTokens(e);
      OneMore(evidence, i, available);
      if evidenceTokens + itemTokens > available {
        continue;
      }
      included := included + [Priced(e)];
      evidenceTokens := evidenceTokens + itemTokens;
    }
    assert evidence[..|evidence|] == evidence;
    SumIsCost(PricedAll(evidence), Costs(evidence), Greedy(Costs(evidence), available));
    var omitted := |evidence| - |included|;
    budget := Budget(maxTokens, reservedTokens, evidenceTokens, reservedTokens + evidenceTokens, |included|, omitted, omitted > 0);
  }

  lemma OneMore(evidence: seq<Evidence>, i: nat, available: nat)
    requires i < |evidence|
    ensures var costs, more := Costs(evidence[..i]), Costs(evidence[..i + 1]);
            var fits := Cost(costs, Greedy(costs, available)) + EstimateEvidenceTokens(evidence[i]) <= available;
            && Cost(more, Greedy(more, available)) ==
                 Cost(costs, Greedy(costs, available)) + (if fits then EstimateEvidenceTokens(evidence[i]) else 0)
            && Select(PricedAll(evidence[..i + 1]), Greedy(more, available)) ==
                 Select(PricedAll(evidence[..i]), Greedy(costs, available)) + (if fits then [Priced(evidence[i])] else [])
  {
    hide EstimateEvidenceTokens;
    var costs, more := Costs(evidence[..i]), Costs(evidence[..i + 1]);
    assert more[..i] == costs && PricedAll(evidence[..i + 1])[..i] == PricedAll(evidence[..i]);
    assert Greedy(more, available)[..i] == Greedy(costs, available);
  }

  /** The share kept back for the question and the instructions. */
  function ReservedTokens(maxTokens: int, question: string): int {
    Min(maxTokens / 3, EstimateTokens(question) + 80)
  }

  /** As the context assembler calls it, the estimate never exceeds the limit of the request. */
  method BudgetContext(ranked: seq<Evidence>, maxTokens: nat, question: string)
    returns (included: seq<Evidence>, budget: Budget)
    ensures budget.totalEstimatedTokens <= maxTokens
    ensures var r, asked := budget.reservedTokens, EstimateTokens(question) + 80;
            3 * r <= maxTokens && r <= asked && (r == asked || maxTokens < 3 * (r + 1))
    ensures included == Select(PricedAll(ranked), Greedy(Costs(ranked), maxTokens - ReservedTokens(maxTokens, question)))
  {
    included, budget := ApplyTokenBudget(ranked, maxTokens, ReservedTokens(maxTokens, question));
  }
}
