/** The planner of `backend/services/agent/main.py`: the language model's raw
    reply is cleaned of a Markdown code fence and parsed as JSON; every
    failure becomes an error map instead of an exception. The model call and
    `json.loads` are parameters. */
module Planner {
  import opened Wrappers
  import opened JsonValues
  import opened PyStr

  /** The opening marker of a fenced block tagged as JSON. */
  const JsonFence: string := "```json"
  /** The marker of a generic fenced block (and the closing marker). */
  const Fence: string := "```"
  /** The fixed `"error"` text of the planner's error map. */
  const PlanFailureText: string := "Gagal menghasilkan rencana dari LLM."

  /** `"```json" in s` implies `"```" in s`. */
  lemma JsonFenceHasFence(s: string)
    ensures Contains(s, JsonFence) ==> Contains(s, Fence)
  {
    if Contains(s, JsonFence) {
      var i := IndexOf(s, JsonFence).value;
      PrefixOccurs(s, Fence, JsonFence, i);
      ContainsIff(s, Fence);
    }
  }

  /** The reassignment of `response_str` before `json.loads`: a reply with a
      fence is cut down to the fenced text and stripped; a reply without one
      is passed on untouched, not even stripped. */
  function CleanResponse(reply: string): (cleaned: string)
    ensures !Contains(reply, Fence) ==> cleaned == reply
    ensures Contains(reply, Fence) ==> !Contains(cleaned, Fence)
  {
    JsonFenceHasFence(reply);
    if Contains(reply, JsonFence) then
      // `split` has a second piece because the marker occurs
      var inner := Split(reply, JsonFence)[1];
      var piece := Split(inner, Fence)[0];
      SplitFirst(inner, Fence);
      BeforeHasNone(inner, Fence);
      StripHasNone(piece, Fence);
      Strip(piece)
    else if Contains(reply, Fence) then
      var piece := Split(reply, Fence)[1];
      SplitSecond(reply, Fence);
      BeforeHasNone(After(reply, Fence), Fence);
      StripHasNone(piece, Fence);
      Strip(piece)
    else
      reply
  }

  /** The planner's error map for a failure whose message is `detail`. */
  function ErrorPlan(detail: string): PlanMap {
    map["error" := JString(PlanFailureText), "detail" := JString(detail)]
  }

  /** `get_agent_plan`. `reply` is the outcome of the model call: its text, or
      the message of the exception it raised; `loads` stands for `json.loads`,
      giving the decoded object or the message of its decoding error. The
      function is total: it never raises. */
  function GetAgentPlan(reply: Result<string, string>, loads: string -> Result<PlanMap, string>): (plan: PlanMap)
    ensures reply.Failure? ==>
      plan.Keys == {"error", "detail"} && plan["error"] == JString(PlanFailureText)
      && plan["detail"] == JString(reply.error)
    ensures reply.Success? && loads(CleanResponse(reply.value)).Failure? ==>
      plan.Keys == {"error", "detail"} && plan["error"] == JString(PlanFailureText)
      && plan["detail"] == JString(loads(CleanResponse(reply.value)).error)
    ensures reply.Success? && loads(CleanResponse(reply.value)).Success? ==>
      plan == loads(CleanResponse(reply.value)).value
  {
    match reply
    case Failure(message) => ErrorPlan(message)
    case Success(text) =>
      match loads(CleanResponse(text))
      case Failure(message) => ErrorPlan(message)
      case Success(parsed) => parsed
  }

  // ---------------------------------------------------------------------
  // What the cleaning step does, stated with first occurrences

  /** A first occurrence is determined by its two defining properties. */
  lemma IndexOfIs(s: string, sep: string, i: nat)
    requires OccursAt(s, sep, i)
    requires forall j :: 0 <= j < i ==> !OccursAt(s, sep, j)
    ensures IndexOf(s, sep) == Some(i)
  {
  }

  /** The `"```json"` branch exactly: the text after the first `"```json"`,
      cut at the next `"```json"` (the `split` piece), then before its first
      `"```"`, then stripped. It is taken whenever `"```json"` occurs, so it
      wins when both markers are present. */
  lemma CleanJsonBranch(reply: string)
    requires Contains(reply, JsonFence)
    ensures CleanResponse(reply) == Strip(Before(Before(After(reply, JsonFence), JsonFence), Fence))
  {
    SplitSecond(reply, JsonFence);
    SplitFirst(Split(reply, JsonFence)[1], Fence);
  }

  /** Every occurrence of `"```"` is three backticks. */
  lemma FenceChars(s: string, p: int)
    ensures OccursAt(s, Fence, p) ==> s[p] == '`' && s[p + 1] == '`' && s[p + 2] == '`'
  {
    if OccursAt(s, Fence, p) {
      assert s[p..p + 3] == Fence;
    }
  }

  /** Two overlapping occurrences of `"```"` make four backticks in a row. */
  lemma FourBackticks(a: string, m: int, k: int)
    requires OccursAt(a, Fence, m) && OccursAt(a, Fence, k) && m < k < m + 3
    ensures OccursAt(a, "````", m)
  {
    FenceChars(a, m);
    FenceChars(a, k);
    assert a[m + 3] == '`';
    assert a[m..m + 4] == "````";
  }

  /** Cutting at the next `"```json"` first makes no difference unless a
      `"```"` overlaps that marker, which needs four backticks in a row. */
  lemma BeforeJsonFenceThenFence(a: string)
    requires !Contains(a, "````")
    ensures Before(Before(a, JsonFence), Fence) == Before(a, Fence)
  {
    if IndexOf(a, JsonFence).Some? {
      var k := IndexOf(a, JsonFence).value;
      assert Before(a, JsonFence) == a[..k];
      PrefixOccurs(a, Fence, JsonFence, k);
      var m := IndexOf(a, Fence).value;
      assert m <= k;
      if m < k && k < m + 3 {
        FourBackticks(a, m, k);
        assert false;
      }
      if m + 3 <= k {
        FenceInPrefix(a, k, m);
        assert a[..k][..m] == a[..m];
      } else {
        NoFenceBeforeFirst(a, k);
      }
    }
  }

  /** A first `"```"` that ends inside a prefix is the prefix's first `"```"`. */
  lemma FenceInPrefix(a: string, k: nat, m: nat)
    requires k <= |a| && IndexOf(a, Fence) == Some(m) && m + 3 <= k
    ensures IndexOf(a[..k], Fence) == Some(m)
  {
    PrefixOccurrence(a, k, Fence, m);
    forall j | 0 <= j < m ensures !OccursAt(a[..k], Fence, j) {
      PrefixOccurrence(a, k, Fence, j);
    }
    IndexOfIs(a[..k], Fence, m);
  }

  /** The text before the first `"```"` holds none. */
  lemma NoFenceBeforeFirst(a: string, k: nat)
    requires IndexOf(a, Fence) == Some(k)
    ensures IndexOf(a[..k], Fence).None?
  {
    forall j ensures !OccursAt(a[..k], Fence, j) {
      PrefixOccurrence(a, k, Fence, j);
    }
  }

  /** The `"```json"` branch as the code reads at a glance: whatever follows
      the first `"```json"`, up to the next `"```"` or the end, stripped;
      this holds when no four backticks follow the marker. */
  lemma CleanJsonBranchToFence(reply: string)
    requires Contains(reply, JsonFence)
    requires !Contains(After(reply, JsonFence), "````")
    ensures CleanResponse(reply) == Strip(Before(After(reply, JsonFence), Fence))
  {
    CleanJsonBranch(reply);
    BeforeJsonFenceThenFence(After(reply, JsonFence));
  }

  /** Without the four-backtick condition the shorter description fails:
      the `"```"` that starts two characters into the next `"```json"` is
      not where the text is cut. */
  lemma CleanJsonBranchOverlap(x: string)
    requires forall i :: 0 <= i < |x| ==> x[i] != '`'
    ensures CleanResponse(JsonFence + x + "`````json") == Strip(x + "``")
    ensures Before(After(JsonFence + x + "`````json", JsonFence), Fence) == x
  {
    var a := x + "`````json";
    var s := JsonFence + a;
    assert JsonFence + x + "`````json" == s;
    assert After(s, JsonFence) == a by {
      assert s[0..7] == JsonFence;
      IndexOfIs(s, JsonFence, 0);
    }
    OverlapCutsAtJsonFence(x);
    OverlapFenceFree(x);
    OverlapCutsAtFence(x);
    CleanJsonBranch(s);
  }

  /** The next `"```json"` in `x + "`````json"` starts two characters after
      its first `"```"`. */
  lemma OverlapCutsAtJsonFence(x: string)
    requires forall i :: 0 <= i < |x| ==> x[i] != '`'
    ensures Before(x + "`````json", JsonFence) == x + "``"
  {
    var a := x + "`````json";
    var n := |x|;
    assert forall i :: 0 <= i < n ==> a[i] == x[i];
    assert a[n..] == "`````json";
    SliceOfSlice(a, n, |a|, 2, 9);
    forall p | 0 <= p < n + 2 ensures !OccursAt(a, JsonFence, p) {
      if p < n { NotAt(a, JsonFence, p, 0); } else { NotAt(a, JsonFence, p, 3); }
    }
    IndexOfIs(a, JsonFence, n + 2);
  }

  /** `x + "``"` holds no `"```"` when `x` has no backtick. */
  lemma OverlapFenceFree(x: string)
    requires forall i :: 0 <= i < |x| ==> x[i] != '`'
    ensures Before(x + "``", Fence) == x + "``"
  {
    var b := x + "``";
    forall p ensures !OccursAt(b, Fence, p) {
      if 0 <= p < |x| { NotAt(b, Fence, p, 0); }
    }
  }

  /** The first `"```"` of `x + "`````json"` is right after `x`. */
  lemma OverlapCutsAtFence(x: string)
    requires forall i :: 0 <= i < |x| ==> x[i] != '`'
    ensures Before(x + "`````json", Fence) == x
  {
    var a := x + "`````json";
    var n := |x|;
    assert forall i :: 0 <= i < n ==> a[i] == x[i];
    assert a[n..] == "`````json";
    SliceOfSlice(a, n, |a|, 0, 3);
    forall p | 0 <= p < n ensures !OccursAt(a, Fence, p) {
      NotAt(a, Fence, p, 0);
    }
    IndexOfIs(a, Fence, n);
  }

  /** The generic branch: a reply with `"```"` but no `"```json"` becomes the
      text between its first and second `"```"` (or to the end), stripped. */
  lemma CleanFenceBranch(reply: string)
    requires Contains(reply, Fence) && !Contains(reply, JsonFence)
    ensures CleanResponse(reply) == Strip(Before(After(reply, Fence), Fence))
  {
    SplitSecond(reply, Fence);
  }

  /** Cleaning is idempotent: the cleaned text of a fenced reply has no fence
      left, and an unfenced reply is left as it is. */
  lemma CleanIdempotent(reply: string)
    ensures CleanResponse(CleanResponse(reply)) == CleanResponse(reply)
  {
  }

  /** Whitespace holds no `"```"`. */
  lemma SpaceHasNoFence(s: string)
    requires AllSpace(s)
    ensures !Contains(s, Fence)
  {
    ContainsIff(s, Fence);
    forall p ensures !OccursAt(s, Fence, p) {
      FenceChars(s, p);
    }
  }

  /** An occurrence ending inside a prefix free of `"```"` does not exist. */
  lemma NoFenceInPrefix(a: string, x: string, p: int)
    requires |x| <= |a| && a[..|x|] == x && !Contains(x, Fence)
    requires 0 <= p && p + 3 <= |x|
    ensures !OccursAt(a, Fence, p)
  {
    ContainsIff(x, Fence);
    PrefixOccurrence(a, |x|, Fence, p);
  }

  /** An occurrence starting inside a suffix free of `"```"` does not exist. */
  lemma NoFenceInSuffix(a: string, n: int, y: string, p: int)
    requires 0 <= n <= |a| && a[n..] == y && !Contains(y, Fence)
    requires n <= p
    ensures !OccursAt(a, Fence, p)
  {
    ContainsIff(y, Fence);
    if p + 3 <= |a| {
      SliceOfSlice(a, n, |a|, p - n, p - n + 3);
      assert !OccursAt(y, Fence, p - n);
    }
  }

  /** Joining two texts without `"```"` makes one only across the join, which
      needs a backtick on both sides of it. */
  lemma JoinHasNoFence(x: string, y: string)
    requires !Contains(x, Fence) && !Contains(y, Fence)
    requires x != [] && y != [] ==> x[|x| - 1] != '`' || y[0] != '`'
    ensures !Contains(x + y, Fence)
  {
    var a := x + y;
    var n := |x|;
    assert a[..n] == x && a[n..] == y;
    ContainsIff(a, Fence);
    forall p ensures !OccursAt(a, Fence, p) {
      if 0 <= p && p + 3 <= n {
        NoFenceInPrefix(a, x, p);
      } else if n <= p {
        NoFenceInSuffix(a, n, y, p);
      } else if 0 <= p && p + 3 <= |a| {
        FenceChars(a, p);
        assert a[n - 1] == x[n - 1] && a[n] == y[0];
      }
    }
  }

  /** When `b` has no `"```"` and does not end in a backtick, the first
      `"```"` of `b + tail` is the one that starts `tail`. */
  lemma FenceAtJoin(b: string, tail: string)
    requires !Contains(b, Fence)
    requires b != [] ==> b[|b| - 1] != '`'
    requires |tail| >= 3 && tail[..3] == Fence
    ensures IndexOf(b + tail, Fence) == Some(|b|)
  {
    var a := b + tail;
    var n := |b|;
    assert a[..n] == b && a[n..] == tail;
    ContainsIff(b, Fence);
    forall p | 0 <= p < n ensures !OccursAt(a, Fence, p) {
      FenceChars(a, p);
      if p + 3 <= n {
        PrefixOccurrence(a, n, Fence, p);
      } else {
        assert a[n - 1] == b[n - 1];
      }
    }
    SliceOfSlice(a, n, |a|, 0, 3);
    IndexOfIs(a, Fence, n);
  }

  /** Leading whitespace adds no `"```"`. */
  lemma LeadingSpaceHasNoFence(pre: string, j: string)
    requires AllSpace(pre) && !Contains(j, Fence)
    ensures !Contains(pre + j, Fence)
  {
    assert !IsSpace('`');
    SpaceHasNoFence(pre);
    if pre != [] { assert IsSpace(pre[|pre| - 1]); }
    JoinHasNoFence(pre, j);
  }

  /** Trailing whitespace adds no `"```"`. */
  lemma TrailingSpaceHasNoFence(x: string, post: string)
    requires AllSpace(post) && !Contains(x, Fence)
    ensures !Contains(x + post, Fence)
  {
    assert !IsSpace('`');
    SpaceHasNoFence(post);
    if post != [] { assert IsSpace(post[0]); }
    JoinHasNoFence(x, post);
  }

  /** `pre + j + post` ends in whitespace or in the last character of `j`,
      so never in a backtick under the conditions of the round trip. */
  lemma PaddedEnd(pre: string, j: string, post: string)
    requires AllSpace(pre) && AllSpace(post)
    requires post == [] && j != [] ==> j[|j| - 1] != '`'
    ensures var b := pre + j + post; b != [] ==> b[|b| - 1] != '`'
  {
    assert !IsSpace('`');
    var b := pre + j + post;
    if post != [] { assert b[|b| - 1] == post[|post| - 1]; }
    else if j != [] { assert b[|b| - 1] == j[|j| - 1]; }
    else if pre != [] { assert b[|b| - 1] == pre[|pre| - 1]; }
  }

  /** In `pre + j + post + tail`, where `tail` starts with `"```"`, the first
      `"```"` is the one that starts `tail`, under the conditions of the
      round trip. */
  lemma OnlyClosingFence(pre: string, j: string, post: string, tail: string)
    requires AllSpace(pre) && AllSpace(post)
    requires !Contains(j, Fence)
    requires post == [] && j != [] ==> j[|j| - 1] != '`'
    requires |tail| >= 3 && tail[..3] == Fence
    ensures IndexOf(pre + j + post + tail, Fence) == Some(|pre| + |j| + |post|)
  {
    LeadingSpaceHasNoFence(pre, j);
    TrailingSpaceHasNoFence(pre + j, post);
    PaddedEnd(pre, j, post);
    FenceAtJoin(pre + j + post, tail);
  }

  /** Concatenation regrouped. */
  lemma Regroup(a: string, b: string, c: string, d: string, e: string)
    ensures a + b + c + d + e == a + (b + c + d + e)
  {
  }

  lemma Regroup4(a: string, b: string, c: string, d: string)
    ensures a + b + c + d == a + (b + c + d)
  {
  }

  /** A reply opened by `"```json"` with no second `"```json"` is cleaned to
      the text before its first `"```"`, stripped. */
  lemma CleanOpenedReply(a: string)
    requires !Contains(a, JsonFence)
    ensures CleanResponse(JsonFence + a) == Strip(Before(a, Fence))
  {
    var s := JsonFence + a;
    assert Contains(s, JsonFence) && After(s, JsonFence) == a by {
      assert s[0..7] == JsonFence;
      IndexOfIs(s, JsonFence, 0);
    }
    CleanJsonBranch(s);
  }

  /** A `"```json"` starts with `"```"`, so none fits after the first `"```"`
      when fewer than seven characters are left from there. */
  lemma NoJsonFenceAfter(a: string, n: nat)
    requires IndexOf(a, Fence) == Some(n) && |a| < n + 7
    ensures !Contains(a, JsonFence)
  {
    ContainsIff(a, JsonFence);
    forall p ensures !OccursAt(a, JsonFence, p) {
      if OccursAt(a, JsonFence, p) {
        PrefixOccurs(a, Fence, JsonFence, p);
      }
    }
  }

  /** Round trip: a JSON text `j` wrapped as
      `"```json" + whitespace + j + whitespace + "```"` is cleaned back to `j`
      when `j` holds no `"```"`, has no whitespace at either end and, when no
      whitespace follows it, does not end in a backtick (no JSON text does). */
  lemma CleanRoundTrip(pre: string, j: string, post: string)
    requires AllSpace(pre) && AllSpace(post)
    requires !Contains(j, Fence)
    requires j != [] ==> !IsSpace(j[0]) && !IsSpace(j[|j| - 1])
    requires post == [] && j != [] ==> j[|j| - 1] != '`'
    ensures CleanResponse(JsonFence + pre + j + post + Fence) == j
  {
    var a := pre + j + post + Fence;
    var n := |pre| + |j| + |post|;
    assert Before(a, Fence) == pre + j + post && !Contains(a, JsonFence) by {
      OnlyClosingFence(pre, j, post, Fence);
      NoJsonFenceAfter(a, n);
      assert a[..n] == pre + j + post;
    }
    CleanOpenedReply(a);
    StripPadded(pre, j, post);
    Regroup(JsonFence, pre, j, post, Fence);
  }

  /** The round trip needs `j` not to end in a backtick: `k + "`"` wrapped
      with no whitespace loses that backtick, because the closing marker is
      found one character early. */
  lemma CleanLosesTrailingBacktick(k: string)
    requires !Contains(k, Fence)
    requires k != [] ==> k[|k| - 1] != '`'
    ensures CleanResponse(JsonFence + k + "`" + Fence) == Strip(k)
  {
    var a := k + "`" + Fence;
    assert Before(a, Fence) == k && !Contains(a, JsonFence) by {
      var tail := "`" + Fence;
      assert k + tail == a;
      FenceAtJoin(k, tail);
      NoJsonFenceAfter(a, |k|);
      assert a[..|k|] == k;
    }
    CleanOpenedReply(a);
    Regroup4(JsonFence, k, "`", Fence);
  }

  /** Parsing a fenced reply gives the same plan as parsing the bare JSON text. */
  lemma PlanIgnoresFence(pre: string, j: string, post: string, loads: string -> Result<PlanMap, string>)
    requires AllSpace(pre) && AllSpace(post)
    requires !Contains(j, Fence)
    requires j != [] ==> !IsSpace(j[0]) && !IsSpace(j[|j| - 1])
    requires post == [] && j != [] ==> j[|j| - 1] != '`'
    ensures GetAgentPlan(Success(JsonFence + pre + j + post + Fence), loads) == GetAgentPlan(Success(j), loads)
  {
    CleanRoundTrip(pre, j, post);
  }
}
