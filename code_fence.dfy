/**
 * `content.split(/```([\s\S]+?)```/g)` as the chat page renders a message: the text
 * between fences at even indices, the code between them (the capture group) at odd ones.
 * String splitting by a regular expression follows the `@@split` method of RegExp in
 * ECMA-262: the matcher is tried at each position from the left; at a match, the text
 * before it and the capture are emitted and the scan restarts after it; the remaining tail
 * is emitted last. A pattern that cannot match the empty string splits "" into [""].
 */
module CodeFence {
  import opened Wrappers
  import opened Js

  const Fence: string := "```"

  predicate FenceAt(t: string, k: nat) {
    k + 3 <= |t| && t[k..k + 3] == Fence
  }

  /** The first fence in `t` at or after position `k`: the lazy `+?` takes the nearest closing one. */
  function CloseAfter(t: string, k: nat): (r: Option<nat>)
    decreases |t| - k
    ensures r.Some? ==> k <= r.value && FenceAt(t, r.value)
    ensures r.Some? ==> forall m :: k <= m < r.value ==> !FenceAt(t, m)
    ensures r.None? ==> forall m :: k <= m ==> !FenceAt(t, m)
  {
    if k + 3 > |t| then None
    else if t[k..k + 3] == Fence then Some(k)
    else CloseAfter(t, k + 1)
  }

  /**
   * The match attempted at `q`: an opening fence, at least one character, and the nearest
   * closing fence after that one character. The result is where the closing fence starts,
   * so the capture is `s[q + 3..c]` and the match ends at `c + 3`.
   */
  function MatchAt(s: string, q: nat): (r: Option<nat>)
    ensures r.Some? ==> FenceAt(s, q) && q + 4 <= r.value && FenceAt(s, r.value)
    ensures r.Some? ==> forall m :: q + 4 <= m < r.value ==> !FenceAt(s, m)
    ensures r.None? ==> !FenceAt(s, q) || forall m :: q + 4 <= m ==> !FenceAt(s, m)
  {
    if FenceAt(s, q) then CloseAfter(s, q + 4) else None
  }

  /** `s` is the text before a match, the match itself, and the text after it. */
  lemma Reassemble(s: string, q: nat, c: nat)
    requires FenceAt(s, q) && q + 3 <= c && FenceAt(s, c)
    ensures s[..q] + Fence + s[q + 3..c] + Fence + s[c + 3..] == s
  {
    var pre, mid, tail := s[..q], s[q + 3..c], s[c + 3..];
    assert s[c..] == Fence + tail;
    assert s[q + 3..] == mid + s[c..];
    assert s[q..] == Fence + s[q + 3..];
    assert s == pre + s[q..];
    AppendAssoc(pre + Fence + mid, Fence, tail);
    AppendAssoc(pre + Fence, mid, Fence + tail);
    AppendAssoc(pre, Fence, mid + (Fence + tail));
  }

  /** The split of `s`, the scan having passed the positions before `q` without a match. */
  function SplitFrom(s: string, q: nat): (parts: seq<string>)
    requires q <= |s|
    decreases |s|, |s| - q
    ensures |parts| >= 1
  {
    if q == |s| then [s]
    else
      match MatchAt(s, q)
      case None => SplitFrom(s, q + 1)
      case Some(c) => [s[..q], s[q + 3..c]] + SplitFrom(s[c + 3..], 0)
  }

  function Split(content: string): (parts: seq<string>)
    ensures |parts| >= 1
  {
    SplitFrom(content, 0)
  }

  /** The parts put back together with a fence around every odd-index part. */
  function Rebuild(parts: seq<string>): string
    requires |parts| % 2 == 1
    decreases |parts|
  {
    if |parts| == 1 then parts[0]
    else parts[0] + Fence + parts[1] + Fence + Rebuild(parts[2..])
  }

  lemma {:induction false} SplitFromOdd(s: string, q: nat)
    requires q <= |s|
    decreases |s|, |s| - q
    ensures |SplitFrom(s, q)| % 2 == 1
  {
    if q < |s| {
      match MatchAt(s, q)
      case None =>
        SplitFromOdd(s, q + 1);
      case Some(c) =>
        SplitFromOdd(s[c + 3..], 0);
    }
  }

  lemma {:induction false} SplitFromCode(s: string, q: nat)
    requires q <= |s|
    decreases |s|, |s| - q
    ensures forall i :: 0 <= i < |SplitFrom(s, q)| && i % 2 == 1 ==> SplitFrom(s, q)[i] != ""
  {
    if q < |s| {
      match MatchAt(s, q)
      case None =>
        SplitFromCode(s, q + 1);
      case Some(c) =>
        var rest := SplitFrom(s[c + 3..], 0);
        SplitFromCode(s[c + 3..], 0);
        var parts := SplitFrom(s, q);
        assert parts == [s[..q], s[q + 3..c]] + rest;
        forall i | 2 <= i < |parts| && i % 2 == 1 ensures parts[i] != "" {
          assert parts[i] == rest[i - 2];
        }
    }
  }

  lemma {:induction false} SplitFromRebuild(s: string, q: nat)
    requires q <= |s|
    decreases |s|, |s| - q
    ensures |SplitFrom(s, q)| % 2 == 1 && Rebuild(SplitFrom(s, q)) == s
  {
    SplitFromOdd(s, q);
    if q < |s| {
      match MatchAt(s, q)
      case None =>
        SplitFromRebuild(s, q + 1);
      case Some(c) =>
        var rest := SplitFrom(s[c + 3..], 0);
        SplitFromRebuild(s[c + 3..], 0);
        var parts := SplitFrom(s, q);
        assert parts == [s[..q], s[q + 3..c]] + rest;
        assert parts[2..] == rest;
        assert Rebuild(parts) == s[..q] + Fence + s[q + 3..c] + Fence + s[c + 3..];
        Reassemble(s, q, c);
    }
  }

  /**
   * The split has an odd number of parts, every code part (odd index) is non-empty, and
   * wrapping the code parts in fences again gives back the message.
   */
  lemma SplitShape(content: string)
    ensures |Split(content)| % 2 == 1
    ensures forall i :: 0 <= i < |Split(content)| && i % 2 == 1 ==> Split(content)[i] != ""
    ensures Rebuild(Split(content)) == content
  {
    SplitFromOdd(content, 0);
    SplitFromCode(content, 0);
    SplitFromRebuild(content, 0);
  }

  /** No fence starts after the first character of a code part and ends by its closing fence. */
  predicate Lazy(code: string) {
    forall j :: 1 <= j < |code| ==> !FenceAt(code + Fence, j)
  }

  /** The capture of a match is lazy. */
  lemma CaptureLazy(s: string, q: nat, c: nat)
    requires MatchAt(s, q) == Some(c)
    ensures Lazy(s[q + 3..c])
  {
    var code := s[q + 3..c];
    var w := code + Fence;
    assert w == s[q + 3..c + 3];
    assert forall k :: 0 <= k < |w| ==> w[k] == s[q + 3 + k];
    forall j | 1 <= j < |code| ensures !FenceAt(w, j) {
      assert !FenceAt(s, q + 3 + j);
      assert w[j..j + 3] == s[q + 3 + j..q + 6 + j];
    }
  }

  /**
   * Laziness: no code part has a fence that starts after its first character and ends
   * within the part and its closing fence, so every code block ends at the nearest fence.
   */
  lemma {:induction false} SplitFromLazy(s: string, q: nat)
    requires q <= |s|
    decreases |s|, |s| - q
    ensures forall i :: 0 <= i < |SplitFrom(s, q)| && i % 2 == 1 ==> Lazy(SplitFrom(s, q)[i])
  {
    if q < |s| {
      match MatchAt(s, q)
      case None =>
        SplitFromLazy(s, q + 1);
      case Some(c) =>
        var rest := SplitFrom(s[c + 3..], 0);
        SplitFromLazy(s[c + 3..], 0);
        CaptureLazy(s, q, c);
        var parts := SplitFrom(s, q);
        assert parts == [s[..q], s[q + 3..c]] + rest;
        forall i | 2 <= i < |parts| && i % 2 == 1 ensures Lazy(parts[i]) {
          assert parts[i] == rest[i - 2];
        }
    }
  }

  lemma SplitLazy(content: string)
    ensures forall i :: 0 <= i < |Split(content)| && i % 2 == 1 ==>
              forall j :: 1 <= j < |Split(content)[i]| ==> !FenceAt(Split(content)[i] + Fence, j)
  {
    SplitFromLazy(content, 0);
  }

  /** Leftmost: the first text part reaches exactly up to the first position where a match starts. */
  lemma {:induction false} SplitFromLeftmost(s: string, q: nat)
    requires q <= |s|
    requires forall m :: 0 <= m < q ==> MatchAt(s, m).None?
    decreases |s| - q
    ensures q <= |SplitFrom(s, q)[0]| <= |s| && SplitFrom(s, q)[0] == s[..|SplitFrom(s, q)[0]|]
    ensures forall m :: 0 <= m < |SplitFrom(s, q)[0]| ==> MatchAt(s, m).None?
    ensures |SplitFrom(s, q)| > 1 ==> MatchAt(s, |SplitFrom(s, q)[0]|).Some?
  {
    if q < |s| {
      match MatchAt(s, q)
      case None =>
        SplitFromLeftmost(s, q + 1);
      case Some(c) =>
    }
  }

  lemma SplitLeftmost(content: string)
    ensures forall m :: 0 <= m < |Split(content)[0]| ==> MatchAt(content, m).None?
    ensures |Split(content)| > 1 ==> MatchAt(content, |Split(content)[0]|).Some?
  {
    SplitFromLeftmost(content, 0);
  }

  /** Positions the scan passes without a match do not change its result. */
  lemma {:induction false} SplitFromSkip(s: string, q: nat, p: nat)
    requires q <= p <= |s|
    requires forall m :: q <= m < p ==> MatchAt(s, m).None?
    decreases p - q
    ensures SplitFrom(s, q) == SplitFrom(s, p)
  {
    if q < p {
      SplitFromSkip(s, q + 1, p);
    }
  }

  /**
   * The restart step of `@@split`: at the leftmost position `p` where the pattern matches,
   * the text before it and the capture are emitted, and the split goes on with what follows
   * the match. Together with SplitNoMatch this determines every part of the split.
   */
  lemma SplitRestart(content: string, p: nat, c: nat)
    requires MatchAt(content, p) == Some(c)
    requires forall m :: 0 <= m < p ==> MatchAt(content, m).None?
    ensures Split(content) == [content[..p], content[p + 3..c]] + Split(content[c + 3..])
  {
    SplitFromSkip(content, 0, p);
  }

  /** With no position where the pattern matches, the message is one text part. */
  lemma SplitNoMatch(content: string)
    requires forall m :: 0 <= m <= |content| ==> MatchAt(content, m).None?
    ensures Split(content) == [content]
  {
    SplitFromSkip(content, 0, |content|);
  }

  /** A message without any fence is rendered as one text part. */
  lemma {:induction false} NoFenceFrom(s: string, q: nat)
    requires q <= |s|
    requires forall k :: q <= k ==> !FenceAt(s, k)
    decreases |s| - q
    ensures SplitFrom(s, q) == [s]
  {
    if q < |s| {
      NoFenceFrom(s, q + 1);
    }
  }

  lemma NoFence(content: string)
    requires forall k :: !FenceAt(content, k)
    ensures Split(content) == [content]
  {
    NoFenceFrom(content, 0);
  }
}
