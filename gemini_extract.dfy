/**
 * Finding the JSON text in the model's free-text reply:
 *   `text.match(/```json\n([\s\S]*?)\n```/) || text.match(/\{[\s\S]*\}/)`,
 * then `match ? (match[1] || match[0]) : text`.
 */
module GeminiExtract {
  import opened Wrappers
  import opened JsString

  const Fence := "```json\n"
  const Closer := "\n```"

  /** A fenced block opens at `p` and closes at `q`. */
  ghost predicate FencePair(t: string, p: int, q: int)
  {
    OccursAt(t, Fence, p) && p + |Fence| <= q && OccursAt(t, Closer, q)
  }

  /**
   * The leftmost match of the fenced-block pattern, with its lazy capture: it
   * opens at the first opening fence and closes at the first closing fence
   * after it.
   */
  ghost predicate LeftmostFence(t: string, p: int, q: int)
  {
    && FencePair(t, p, q)
    && (forall k :: 0 <= k < p ==> !OccursAt(t, Fence, k))
    && (forall k :: p + |Fence| <= k < q ==> !OccursAt(t, Closer, k))
  }

  /** The span from the first '{' to the last '}' after it, as the greedy brace pattern matches. */
  ghost predicate BraceSpan(t: string, f: int, l: int)
  {
    && 0 <= f < l < |t| && t[f] == '{' && t[l] == '}'
    && (forall k :: 0 <= k < f ==> t[k] != '{')
    && (forall k :: l < k < |t| ==> t[k] != '}')
  }

  /** The fenced-block match as the indices of its two fences. */
  function FindFence(t: string): (r: Option<(nat, nat)>)
    ensures r.Some? ==> LeftmostFence(t, r.value.0, r.value.1)
    ensures r.None? <==> forall p, q :: !FencePair(t, p, q)
  {
    var p := IndexOf(t, Fence, 0);
    if p == -1 then None
    else
      var q := IndexOf(t, Closer, p + |Fence|);
      if q == -1 then None
      else
        assert FencePair(t, p, q);
        Some((p, q))
  }

  /** The brace match as the indices of its two braces. */
  function FindBraces(t: string): (r: Option<(nat, nat)>)
    ensures r.Some? ==> BraceSpan(t, r.value.0, r.value.1)
    ensures r.None? <==> forall i, j :: 0 <= i < j < |t| ==> !(t[i] == '{' && t[j] == '}')
  {
    var f := IndexOf(t, "{", 0);
    var l := LastIndexOf(t, '}');
    OccursAtChar(t, '{', f);
    assert forall k :: 0 <= k < |t| && t[k] == '{' ==> OccursAt(t, "{", k) by {
      forall k | 0 <= k < |t| && t[k] == '{' { OccursAtChar(t, '{', k); }
    }
    if f == -1 || l < f then None else Some((f, l))
  }

  /** The text handed to `JSON.parse`. */
  function JsonCandidate(t: string): string
  {
    match FindFence(t)
    case Some((p, q)) =>
      if q > p + |Fence| then t[p + |Fence|..q] else t[p..q + |Closer|]
    case None =>
      match FindBraces(t)
      case Some((f, l)) => t[f..l + 1]
      case None => t
  }

  lemma LeftmostFenceUnique(t: string, p: int, q: int, p': int, q': int)
    requires LeftmostFence(t, p, q) && LeftmostFence(t, p', q')
    ensures p == p' && q == q'
  {
  }

  /**
   * With a fenced block, the candidate is the leftmost block's lazily captured
   * content, or the whole block when that content is empty.
   */
  lemma FencedCandidate(t: string, p: int, q: int)
    requires LeftmostFence(t, p, q)
    ensures q > p + |Fence| ==> JsonCandidate(t) == t[p + |Fence|..q]
    ensures q == p + |Fence| ==> JsonCandidate(t) == Fence + Closer
    ensures q > p + |Fence| ==> forall k :: !OccursAt(JsonCandidate(t), Closer, k)
  {
    var r := FindFence(t);
    assert r.Some?;
    LeftmostFenceUnique(t, p, q, r.value.0, r.value.1);
    if q > p + |Fence| {
      SliceKeepsAbsence(t, Closer, p + |Fence|, q);
    } else {
      AdjacentFences(t, p, q);
    }
  }

  /** A slice of a stretch where `pat` starts nowhere holds no `pat` either. */
  lemma SliceKeepsAbsence(t: string, pat: string, a: int, b: int)
    requires 0 <= a <= b <= |t|
    requires pat != [] && forall k :: a <= k < b ==> !OccursAt(t, pat, k)
    ensures forall k :: !OccursAt(t[a..b], pat, k)
  {
    forall k
      ensures !OccursAt(t[a..b], pat, k)
    {
      if 0 <= k && k + |pat| <= b - a {
        var c := t[a..b];
        assert forall i :: k <= i < k + |pat| ==> c[i] == t[a + i];
        assert c[k..k + |pat|] == t[a + k..a + k + |pat|];
        assert !OccursAt(t, pat, a + k);
      }
    }
  }

  /** An opening fence directly followed by a closing one spans exactly the two. */
  lemma AdjacentFences(t: string, p: int, q: int)
    requires OccursAt(t, Fence, p) && q == p + |Fence| && OccursAt(t, Closer, q)
    ensures t[p..q + |Closer|] == Fence + Closer
  {
    assert t[p..q + |Closer|] == t[p..p + |Fence|] + t[q..q + |Closer|];
  }

  /** Without a fenced block, the candidate is the span from the first '{' to the last '}'. */
  lemma BraceCandidate(t: string, f: int, l: int)
    requires forall p, q :: !FencePair(t, p, q)
    requires BraceSpan(t, f, l)
    ensures JsonCandidate(t) == t[f..l + 1]
  {
    var r := FindBraces(t);
    assert r.Some? by {
      assert t[f] == '{' && t[l] == '}';
    }
    BraceSpanUnique(t, f, l, r.value.0, r.value.1);
  }

  lemma BraceSpanUnique(t: string, f: int, l: int, f': int, l': int)
    requires BraceSpan(t, f, l) && BraceSpan(t, f', l')
    ensures f == f' && l == l'
  {
  }

  /** With neither pattern matching, the whole reply is the candidate. */
  lemma WholeTextCandidate(t: string)
    requires forall p, q :: !FencePair(t, p, q)
    requires forall i, j :: 0 <= i < j < |t| ==> !(t[i] == '{' && t[j] == '}')
    ensures JsonCandidate(t) == t
  {
  }
}
